/**
 The receiver's disk writer (crates/core/src/disk/writer.rs): `Step` gives one turn of the `select!` loop as
 a new session state and the disk states it passes through, and the class `ReceiveSession` is the in-place
 loop, proved to do exactly that.
 */
module Writer {
  import opened Wrappers
  import opened Chunks
  import opened Bitmap
  import opened Disk

  const SAVE_INTERVAL: nat := 16

  type Hash = Bytes -> nat

  datatype Packet = Packet(index: nat, hash: nat, bytes: Bytes)

  /** What `select!` picks: the cancelled token, a packet (with the clock and whether the final mtime update
      works), or the closed channel. */
  datatype Event =
    | Cancel
    | Receive(packet: Packet, now: nat, touched: bool)
    | Close

  /** Waiting: no packet has come, the loop is not spawned. Drained and Cancelled end with Ok, as Committed
      does; Rejected (hash mismatch) and Faulted (panic or I/O error) end with an error. */
  datatype Status = Waiting | Running | Committed | Drained | Cancelled | Rejected | Faulted

  datatype Session = Session(vec: BitVec, isResumed: bool, open: bool, sinceSave: nat, status: Status) {
    predicate Complete() {
      AllSet(vec.bits)
    }

    /** The file has been opened, if it was not. */
    function Opened(): Session {
      this.(isResumed := if open then isResumed else true, open := true)
    }

    /** Chunk i has been written and counted. */
    function WithChunk(i: nat): (s: Session)
      requires i < |vec.bits|
      ensures s.vec == vec.Set(i) && (vec.Valid() ==> s.vec.Valid())
    {
      Opened().(vec := vec.Set(i), sinceSave := sinceSave + 1)
    }
  }

  function SaveTrace(m: Metadata, vec: BitVec, d: Disk): seq<Disk>
    requires vec.Valid()
  {
    if !m.Staged() then [] else WriteState(d, vec.Raw())
  }

  function OpenTrace(m: Metadata, isResumed: bool, d: Disk, now: nat): seq<Disk> {
    if !m.Staged() then [OpenFinal(d, now)]
    else if isResumed then [OpenPart(d)]
    else [OpenPart(d), SizePart(OpenPart(d), m.size)]
  }

  function ChunkTrace(m: Metadata, d: Disk, packet: Packet, now: nat): seq<Disk> {
    var offset := packet.index * m.chunkSize % U64;
    if m.Staged() then WritePart(d, offset, packet.bytes) else WriteFinal(d, offset, packet.bytes, now)
  }

  function WriteTrace(m: Metadata, isResumed: bool, open: bool, d: Disk, packet: Packet, now: nat): seq<Disk> {
    var opening := if open then [] else OpenTrace(m, isResumed, d, now);
    opening + ChunkTrace(m, End(d, opening), packet, now)
  }

  function CommitTrace(m: Metadata, d: Disk, now: nat, touched: bool): seq<Disk> {
    var removed := if d.state.Some? then [RemoveState(d)] else [];
    var d1 := End(d, removed);
    var renamed := if m.Staged() then [RenamePart(d1, now)] else [];
    var d2 := End(d1, renamed);
    removed + renamed + (if touched then [TouchFinal(d2, m.modified)] else [])
  }

  /** After a stored packet: commit the complete bitmap, or save it when the interval is reached. */
  function AfterStore(m: Metadata, s: Session, d: Disk, now: nat, touched: bool): (r: (Session, seq<Disk>))
    requires s.vec.Valid()
    ensures r.0.vec == s.vec
  {
    if s.Complete() then
      (s.(open := false, status := Committed), CommitTrace(m, d, now, touched))
    else if s.sinceSave >= SAVE_INTERVAL then
      (s.(sinceSave := 0), SaveTrace(m, s.vec, d))
    else
      (s, [])
  }

  /** One turn of the loop: the session afterwards and every disk state passed through. */
  function Step(m: Metadata, hash: Hash, s: Session, d: Disk, event: Event): (r: (Session, seq<Disk>))
    requires s.vec.Valid()
    ensures r.0.vec.Valid() && |r.0.vec.bits| == |s.vec.bits|
  {
    match event
    case Cancel =>
      (s.(status := Cancelled), if !s.Complete() && s.isResumed then SaveTrace(m, s.vec, d) else [])
    case Close =>
      (s.(status := Drained), if !s.Complete() && s.sinceSave > 0 then SaveTrace(m, s.vec, d) else [])
    case Receive(packet, now, touched) =>
      if packet.hash != hash(packet.bytes) then
        (s.(status := Rejected), [])
      else
        var written := WriteTrace(m, s.isResumed, s.open, d, packet, now);
        var d1 := End(d, written);
        if packet.index >= |s.vec.bits| then
          (s.Opened().(status := Faulted), written)
        else
          var (s1, after) := AfterStore(m, s.WithChunk(packet.index), d1, now, touched);
          (s1, written + after)
  }

  lemma StepFailed(m: Metadata, hash: Hash, s: Session, d: Disk, packet: Packet, now: nat, touched: bool)
    requires s.vec.Valid() && (packet.hash != hash(packet.bytes) || packet.index >= |s.vec.bits|)
    ensures var step := Step(m, hash, s, d, Receive(packet, now, touched));
            if packet.hash != hash(packet.bytes) then step == (s.(status := Rejected), [])
            else step.0 == s.Opened().(status := Faulted)
                 && step.1 == WriteTrace(m, s.isResumed, s.open, d, packet, now)
  {
    hide WriteTrace, AfterStore, End;
  }

  /** A stored packet is the chunk write followed by the commit or save. */
  lemma StepStored(m: Metadata, hash: Hash, s: Session, d: Disk, packet: Packet, now: nat, touched: bool)
    requires s.vec.Valid() && packet.hash == hash(packet.bytes) && packet.index < |s.vec.bits|
    ensures var written := WriteTrace(m, s.isResumed, s.open, d, packet, now);
            var next := AfterStore(m, s.WithChunk(packet.index), End(d, written), now, touched);
            var step := Step(m, hash, s, d, Receive(packet, now, touched));
            step.0 == next.0 && step.1 == written + next.1 && End(d, step.1) == End(End(d, written), next.1)
  {
    hide WriteTrace, AfterStore, End;
    var written := WriteTrace(m, s.isResumed, s.open, d, packet, now);
    Follow([], d, written, AfterStore(m, s.WithChunk(packet.index), End(d, written), now, touched).1);
  }

  /**
   A stored packet that does not complete the file rewrites `.state` with the sixteenth chunk since the last save, and
   leaves it alone otherwise.
   */
  lemma SaveEvery16(m: Metadata, hash: Hash, s: Session, d: Disk, packet: Packet, now: nat, touched: bool)
    requires s.vec.Valid() && packet.hash == hash(packet.bytes) && packet.index < |s.vec.bits| && m.Staged()
    requires !AllSet(s.vec.Set(packet.index).bits)
    ensures var (s1, trace) := Step(m, hash, s, d, Receive(packet, now, touched));
            && s1.status == s.status && s1.sinceSave == (if s.sinceSave + 1 < 16 then s.sinceSave + 1 else 0)
            && (if s.sinceSave + 1 < 16 then forall k :: 0 <= k < |trace| ==> trace[k].state == d.state
                else End(d, trace).state == Some(s.vec.Set(packet.index).Raw()))
  {
    StepStored(m, hash, s, d, packet, now, touched);
    var written := WriteTrace(m, s.isResumed, s.open, d, packet, now);
    var s1 := s.WithChunk(packet.index);
    WriteKeepsState(m, s, d, packet, now);
    var raw := s1.vec.Raw();
    assert raw[..|raw|] == raw;
    hide Step, WriteTrace, BitVec.Raw, AllSet, BitVec.Valid;
  }

  /**
   What the end of the loop writes: a close saves only chunks stored since the last save, a cancel also what was saved
   already, once the file has been opened or found on disk; neither does for a complete or a single-chunk file.
   */
  lemma EndWrites(m: Metadata, hash: Hash, s: Session, d: Disk)
    requires s.vec.Valid()
    ensures var (s1, trace) := Step(m, hash, s, d, Close);
            && s1 == s.(status := Drained)
            && (trace == [] <==> !m.Staged() || AllSet(s.vec.bits) || s.sinceSave == 0)
            && (trace != [] ==> End(d, trace) == d.(state := Some(s.vec.Raw())))
    ensures var (s1, trace) := Step(m, hash, s, d, Cancel);
            && s1 == s.(status := Cancelled)
            && (trace == [] <==> !m.Staged() || AllSet(s.vec.bits) || !s.isResumed)
            && (trace != [] ==> End(d, trace) == d.(state := Some(s.vec.Raw())))
  {
    var raw := s.vec.Raw();
    assert raw[..|raw|] == raw;
    hide BitVec.Raw;
  }

  lemma WriteKeepsState(m: Metadata, s: Session, d: Disk, packet: Packet, now: nat)
    ensures var trace := WriteTrace(m, s.isResumed, s.open, d, packet, now);
            End(d, trace).state == d.state && forall k :: 0 <= k < |trace| ==> trace[k].state == d.state
  {
    hide WriteAt, SetLen;
  }

  function Run(m: Metadata, hash: Hash, s: Session, d: Disk, events: seq<Event>): (Session, seq<Disk>)
    requires s.vec.Valid()
    decreases |events|
  {
    if events == [] || s.status != Running then (s, [])
    else
      var (s1, t1) := Step(m, hash, s, d, events[0]);
      var (s2, t2) := Run(m, hash, s1, End(d, t1), events[1..]);
      (s2, t1 + t2)
  }

  /** Cancellation is sticky: nothing clears the token. */
  class CancelToken {
    var cancelled: bool

    constructor ()
      ensures !cancelled
    {
      cancelled := false;
    }

    method Cancel()
      modifies this
      ensures cancelled
    {
      cancelled := true;
    }
  }

  datatype Written = Stored | BadHash | Panicked

  class ReceiveSession {
    const metadata: Metadata
    const hash: Hash
    const store: FileStore
    const token: CancelToken
    var state: BitVec
    var isResumed: bool
    var file: bool

    constructor (m: Metadata, hash: Hash, state: BitVec, isResumed: bool, store: FileStore, token: CancelToken)
      ensures this.metadata == m && this.hash == hash && this.store == store && this.token == token
      ensures Value(0) == Session(state, isResumed, false, 0, Running)
    {
      this.metadata := m;
      this.hash := hash;
      this.store := store;
      this.token := token;
      this.state := state;
      this.isResumed := isResumed;
      this.file := false;
    }

    /** The session value of this object while the loop runs; the save counter is local to the loop. */
    function Value(sinceSave: nat): Session
      reads this
    {
      Session(state, isResumed, file, sinceSave, Running)
    }

    function IsComplete(): bool
      reads this
    {
      AllSet(state.bits)
    }

    method SaveState()
      requires state.Valid()
      modifies store
      ensures store.history == old(store.history) + SaveTrace(metadata, state, old(store.disk))
      ensures store.disk == End(old(store.disk), SaveTrace(metadata, state, old(store.disk)))
    {
      if metadata.size <= metadata.chunkSize {
        return;
      }
      store.Perform(WriteState(store.disk, state.Raw()));
    }

    /** The part of `write_chunk_internal` that opens the file on the first packet. */
    method OpenFile(now: nat)
      requires !file
      modifies this, store
      ensures state == old(state) && isResumed && file
      ensures var trace := OpenTrace(metadata, old(isResumed), old(store.disk), now);
              store.history == old(store.history) + trace && store.disk == End(old(store.disk), trace)
    {
      var isSmall := metadata.size <= metadata.chunkSize;
      if isSmall {
        store.Perform([OpenFinal(store.disk, now)]);
      } else {
        store.Perform([OpenPart(store.disk)]);
      }
      if !isResumed {
        if !isSmall {
          store.Perform([SizePart(store.disk, metadata.size)]);
        }
        isResumed := true;
      }
      file := true;
    }

    method WriteChunkInternal(packet: Packet, now: nat) returns (r: Written)
      requires state.Valid()
      modifies this, store
      ensures state.Valid() && (r == BadHash <==> packet.hash != hash(packet.bytes))
      ensures r == BadHash ==> Value(0) == old(Value(0)) && store.disk == old(store.disk)
                               && store.history == old(store.history)
      ensures r != BadHash ==>
                && file && isResumed == (if old(file) then old(isResumed) else true)
                && var trace := WriteTrace(metadata, old(isResumed), old(file), old(store.disk), packet, now);
                   store.history == old(store.history) + trace && store.disk == End(old(store.disk), trace)
      ensures r == Stored ==> packet.index < |old(state).bits| && state == old(state).Set(packet.index)
      ensures r == Panicked ==> packet.index >= |old(state).bits| && state == old(state)
    {
      hide End, WriteAt, SetLen, WritePart, WriteFinal;
      EndEmpty(store.disk);
      if packet.hash != hash(packet.bytes) {
        return BadHash;
      }
      var offset := packet.index * metadata.chunkSize % U64;
      ghost var d0, h0 := store.disk, store.history;
      ghost var opening := if file then [] else OpenTrace(metadata, isResumed, d0, now);
      if !file {
        OpenFile(now);
      }
      ghost var d1 := store.disk;
      assert store.history == h0 + opening && d1 == End(d0, opening);
      ghost var writing := ChunkTrace(metadata, d1, packet, now);
      if metadata.size <= metadata.chunkSize {
        store.Perform(WriteFinal(store.disk, offset, packet.bytes, now));
      } else {
        store.Perform(WritePart(store.disk, offset, packet.bytes));
      }
      EndConcat(d0, opening, writing);
      assert store.history == h0 + (opening + writing);
      if packet.index >= |state.bits| {
        return Panicked;
      }
      state := state.Set(packet.index);
      return Stored;
    }

    method Commit(now: nat, touched: bool)
      modifies this, store
      ensures Value(0) == old(Value(0)).(open := false)
      ensures store.history == old(store.history) + CommitTrace(metadata, old(store.disk), now, touched)
      ensures store.disk == End(old(store.disk), CommitTrace(metadata, old(store.disk), now, touched))
    {
      file := false;
      if store.disk.state.Some? {
        store.Perform([RemoveState(store.disk)]);
      }
      if metadata.size > metadata.chunkSize {
        store.Perform([RenamePart(store.disk, now)]);
      }
      if touched {
        store.Perform([TouchFinal(store.disk, metadata.modified)]);
      }
    }

    method CommitOrSave(sinceSave: nat, now: nat, touched: bool) returns (status: Status, next: nat)
      requires state.Valid()
      modifies this, store
      ensures status == Committed || status == Running
      ensures var (s, trace) := AfterStore(metadata, old(Value(sinceSave)), old(store.disk), now, touched);
              && Value(next).(status := status) == s
              && store.history == old(store.history) + trace && store.disk == End(old(store.disk), trace)
    {
      EndEmpty(store.disk);
      hide End, SaveTrace, CommitTrace, AllSet;
      if IsComplete() {
        Commit(now, touched);
        return Committed, sinceSave;
      }
      if sinceSave >= SAVE_INTERVAL {
        SaveState();
        return Running, 0;
      }
      return Running, sinceSave;
    }

    method OnPacket(packet: Packet, now: nat, touched: bool, chunksSinceSave: nat) returns (status: Status, next: nat)
      requires state.Valid()
      modifies this, store, token
      ensures state.Valid()
      ensures var (s, trace) := Step(metadata, hash, old(Value(chunksSinceSave)), old(store.disk),
                                     Receive(packet, now, touched));
              && Value(next).(status := status) == s
              && store.history == old(store.history) + trace && store.disk == End(old(store.disk), trace)
      ensures status == Rejected ==> token.cancelled
      ensures old(token.cancelled) ==> token.cancelled
    {
      hide End, WriteTrace, AfterStore, Step, BitVec.Set, BitVec.Valid;
      EndEmpty(store.disk);
      next := chunksSinceSave;
      ghost var s0, d0, h0 := Value(chunksSinceSave), store.disk, store.history;
      assert h0 + [] == h0;
      var written := WriteChunkInternal(packet, now);
      match written {
        case BadHash =>
          token.Cancel();
          status := Rejected;
          StepFailed(metadata, hash, s0, d0, packet, now, touched);
        case Panicked =>
          status := Faulted;
          StepFailed(metadata, hash, s0, d0, packet, now, touched);
        case Stored =>
          ghost var d1, trace := store.disk, WriteTrace(metadata, s0.isResumed, s0.open, d0, packet, now);
          ghost var after := AfterStore(metadata, Value(chunksSinceSave + 1), d1, now, touched).1;
          status, next := CommitOrSave(chunksSinceSave + 1, now, touched);
          StepStored(metadata, hash, s0, d0, packet, now, touched);
          Follow(h0, d0, trace, after);
      }
    }

    /** One turn of the `select!` loop. */
    method Turn(event: Event, chunksSinceSave: nat) returns (status: Status, next: nat)
      requires state.Valid()
      modifies this, store, token
      ensures state.Valid()
      ensures var (s, trace) := Step(metadata, hash, old(Value(chunksSinceSave)), old(store.disk), event);
              && Value(next).(status := status) == s
              && store.history == old(store.history) + trace && store.disk == End(old(store.disk), trace)
      ensures status == Rejected ==> token.cancelled
      ensures old(token.cancelled) ==> token.cancelled
    {
      EndEmpty(store.disk);
      hide End, SaveTrace, AllSet, WriteTrace, AfterStore;
      next := chunksSinceSave;
      match event {
        case Cancel =>
          if !IsComplete() && isResumed {
            SaveState();
          }
          status := Cancelled;
        case Close =>
          if !IsComplete() && chunksSinceSave > 0 {
            SaveState();
          }
          status := Drained;
        case Receive(packet, now, touched) =>
          status, next := OnPacket(packet, now, touched, chunksSinceSave);
      }
    }

    /** The writer loop over whatever `select!` picks; Running means it is still waiting for its next event. */
    method RunWriterLoop(events: seq<Event>) returns (status: Status)
      requires state.Valid()
      modifies this, store, token
      ensures var (s, trace) := Run(metadata, hash, old(Value(0)), old(store.disk), events);
              && status == s.status && state == s.vec && isResumed == s.isResumed && file == s.open
              && store.history == old(store.history) + trace
              && store.disk == End(old(store.disk), trace)
      ensures status == Rejected ==> token.cancelled
      ensures old(token.cancelled) ==> token.cancelled
    {
      EndEmpty(store.disk);
      hide End, Step;
      var chunksSinceSave := 0;
      status := Running;
      var i := 0;
      ghost var s0, d0, h0 := Value(0), store.disk, store.history;
      ghost var done: seq<Disk> := [];
      assert events[0..] == events;
      while i < |events| && status == Running
        invariant 0 <= i <= |events|
        invariant state.Valid()
        invariant store.history == h0 + done && store.disk == End(d0, done)
        invariant var cur := Value(chunksSinceSave).(status := status);
                  var (s, rest) := Run(metadata, hash, cur, store.disk, events[i..]);
                  Run(metadata, hash, s0, d0, events).0 == s && Run(metadata, hash, s0, d0, events).1 == done + rest
        invariant status == Rejected ==> token.cancelled
        invariant old(token.cancelled) ==> token.cancelled
      {
        ghost var cur, d := Value(chunksSinceSave), store.disk;
        ghost var next := Step(metadata, hash, cur, d, events[i]);
        status, chunksSinceSave := Turn(events[i], chunksSinceSave);
        Follow(h0, d0, done, next.1);
        Unroll(metadata, hash, cur, d, events[i..], next, done);
        assert events[i..][1..] == events[i + 1..];
        done := done + next.1;
        i := i + 1;
      }
      assert done + [] == done;
    }
  }

  lemma Unroll(m: Metadata, hash: Hash, s: Session, d: Disk, events: seq<Event>, next: (Session, seq<Disk>),
               done: seq<Disk>)
    requires s.vec.Valid() && events != [] && s.status == Running
    requires next == Step(m, hash, s, d, events[0])
    ensures next.0.vec.Valid()
    ensures var rest := Run(m, hash, next.0, End(d, next.1), events[1..]);
            && Run(m, hash, s, d, events).0 == rest.0
            && done + Run(m, hash, s, d, events).1 == (done + next.1) + rest.1
  {
    hide Step, End;
    var rest := Run(m, hash, next.0, End(d, next.1), events[1..]);
    assert Run(m, hash, s, d, events) == (rest.0, next.1 + rest.1);
    Follow(done, d, next.1, rest.1);
  }
}
