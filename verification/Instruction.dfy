/**
 How a handshake turns what is on disk into work: `JobInstruction` (crates/core/src/protocol/types.rs) and
 the large-file loop of `parse` (crates/core/src/protocol/manifest.rs).
 */
module Instruction {
  import opened Wrappers
  import opened Chunks
  import opened Bitmap
  import opened Disk
  import opened Writer
  import opened CrashSafety
  import opened Staging
  import opened Tree

  datatype Instr = Instr(isResumed: bool, vec: BitVec, remaining: nat)

  function New(m: Metadata): Instr
    requires m.Valid()
  {
    Instr(false, Zeros(m.NumChunks()), m.size)
  }

  function MissingBytes(m: Metadata, bits: seq<bool>): nat
    requires m.Valid() && |bits| == m.NumChunks()
  {
    ConservationWhole(m, bits);
    RemainingUpTo(m, bits, |bits|)
  }

  /** The executable reading of `LensWhere(_, _, false, _)`, in the u64 arithmetic of `get_chunk_size`. */
  function RemainingUpTo(m: Metadata, bits: seq<bool>, k: nat): (r: nat)
    requires m.Valid() && |bits| == m.NumChunks() && k <= |bits|
    ensures r == LensWhere(m, bits, false, k) <= m.size
  {
    if k == 0 then 0
    else
      ChunkInBounds(m, k - 1);
      Conservation(m, bits, k);
      RemainingUpTo(m, bits, k - 1) + (if bits[k - 1] then 0 else m.GetChunkSize(k - 1))
  }

  /** `load_state_from_disk` on a fresh instruction. */
  function Loaded(m: Metadata, state: Option<Bytes>, finalLen: Option<nat>, overwrite: bool): Instr
    requires m.Valid()
  {
    if state.Some? then
      var vec := Load(state.value, m.NumChunks());
      Instr(true, vec, MissingBytes(m, vec.bits))
    else if !overwrite && finalLen == Some(m.size) then
      Instr(true, Ones(m.NumChunks()), 0)
    else
      New(m)
  }

  function FinalLen(d: Disk): Option<nat> {
    if d.final.Some? then Some(|d.final.value.data|) else None
  }

  /** One turn of the large-file loop of `parse`: the instruction and the disk states passed through. */
  function ParseLarge(mode: Mode, m: Metadata, d: Disk, now: nat): (Instr, seq<Disk>)
    requires m.Valid()
  {
    match mode
    case Unique =>
      var ins := Loaded(m, d.state, FinalLen(d), false);
      (ins, if AllSet(ins.vec.bits) && d.final.None? then [CreateEmptyFinal(d, now)] else [])
    case Overwrite =>
      var ins := Loaded(m, d.state, FinalLen(d), true);
      (ins, if AllSet(ins.vec.bits) then [CreateEmptyFinal(d, now)] else [])
    case Sync =>
      if d.final.Some? && |d.final.value.data| == m.size && d.final.value.mtime == m.modified then
        (Instr(true, Ones(m.NumChunks()), 0), [])
      else
        var ins := Loaded(m, d.state, FinalLen(d), true);
        (ins, if AllSet(ins.vec.bits) then [CreateEmptyFinal(d, now)] else [])
  }

  /** What a session built from the instruction starts with; its writer is not spawned yet. */
  function Opened(ins: Instr): Session {
    Session(ins.vec, ins.isResumed, false, 0, Waiting)
  }

  ghost predicate Conserves(m: Metadata, ins: Instr)
    requires m.Valid()
  {
    && ins.vec.Valid() && |ins.vec.bits| == m.NumChunks()
    && ins.remaining == LensWhere(m, ins.vec.bits, false, m.NumChunks())
    && ins.remaining + LensWhere(m, ins.vec.bits, true, m.NumChunks()) == m.size
  }

  /** Byte conservation after `new`, every branch of `load_state_from_disk`, and the Sync skip. */
  lemma ParseConserves(mode: Mode, m: Metadata, d: Disk, now: nat)
    requires m.Valid()
    ensures Conserves(m, New(m))
    ensures Conserves(m, ParseLarge(mode, m, d, now).0)
  {
    var n := m.NumChunks();
    ConservationWhole(m, Zeros(n).bits);
    LensOfUniform(m, Zeros(n).bits, false, n);
    ConservationWhole(m, Ones(n).bits);
    LensOfUniform(m, Ones(n).bits, true, n);
    if d.state.Some? {
      ConservationWhole(m, Load(d.state.value, n).bits);
    }
  }

  /**
   Resume theorem of the handshake: on any disk the writer can leave, `parse` touches nothing, takes a file as
   finished only when its final bytes are the source, and otherwise starts from a sound session.
   */
  lemma ParseSafe(j: Job, d: Disk, now: nat)
    requires j.Valid() && FileInv(j, d)
    ensures var (ins, trace) := ParseLarge(j.mode, j.meta, d, now);
            && trace == []
            && ins.vec.Valid() && |ins.vec.bits| == j.meta.NumChunks()
            && (AllSet(ins.vec.bits) ==> Exact(j, d) && d.state == None)
            && (!AllSet(ins.vec.bits) ==> SessionInv(j, Opened(ins), d))
  {
    NumChunksBounds(j.meta);
    var (ins, trace) := ParseLarge(j.mode, j.meta, d, now);
    var n := j.meta.NumChunks();
    assert !Zeros(n).bits[0];
    if d.state.Some? {
      assert ins.vec.bits == DiskBits(j, d);
      NothingUnsaved(j, ins.vec.bits, d);
    } else if !AllSet(ins.vec.bits) {
      assert ins.vec.bits == DiskBits(j, d) == Falses(n);
      NothingUnsaved(j, ins.vec.bits, d);
    }
  }

  /** A file taken as finished is left alone. In Sync mode a `.state` beside it is not even looked at. */
  lemma ParseKept(j: Job, d: Disk, now: nat)
    requires j.Valid() && (d.state == None || j.mode == Sync) && SkipRule(j.mode, j.meta, d.final)
    ensures var (ins, trace) := ParseLarge(j.mode, j.meta, d, now);
            && trace == [] && AllSet(ins.vec.bits) && ins.isResumed && ins.remaining == 0
            && ins.vec.Valid() && |ins.vec.bits| == j.meta.NumChunks()
  {
  }

  /**
   When `parse` writes: for an empty file or one whose `.state` is all ones, and then it leaves an empty final file; in
   Unique mode only where there is none, in Sync mode unless the one there is taken for the finished file.
   */
  lemma ParseTouches(mode: Mode, m: Metadata, d: Disk, now: nat)
    requires m.Valid()
    ensures var trace := ParseLarge(mode, m, d, now).1;
            && (trace != [] <==>
                  && (if d.state.Some? then AllSet(Load(d.state.value, m.NumChunks()).bits) else m.size == 0)
                  && (mode == Unique ==> d.final.None?)
                  && (mode == Sync ==>
                        d.final.None? || |d.final.value.data| != m.size || d.final.value.mtime != m.modified))
            && (trace != [] ==> End(d, trace) == d.(final := Some(File([], now))))
  {
    NumChunksBounds(m);
    assert m.size > 0 ==> !Zeros(m.NumChunks()).bits[0];
  }

  /** What an ordinary interruption left is read back bit for bit. */
  lemma ParseRetained(j: Job, s: Session, d: Disk, now: nat)
    requires j.Valid() && j.meta.Staged() && Retained(j, s, d)
    ensures ParseLarge(j.mode, j.meta, d, now).0.vec.bits == s.vec.bits
  {
  }

  /** Once committed with its mtime restored, a file is skipped by a later Sync. */
  lemma SyncSkips(j: Job, d: Disk, now: nat)
    requires j.Valid() && j.mode == Sync && Exact(j, d) && Restored(j, d)
    ensures var (ins, trace) := ParseLarge(Sync, j.meta, d, now);
            AllSet(ins.vec.bits) && ins.remaining == 0 && trace == []
  {
  }

  /** `JobInstruction`, updated in place. */
  class JobInstruction {
    const metadata: Metadata
    var isResumed: bool
    var state: BitVec
    var remainingBytes: nat

    constructor (m: Metadata)
      requires m.Valid()
      ensures metadata == m && Value() == New(m)
    {
      metadata := m;
      isResumed := false;
      state := Zeros(m.NumChunks());
      remainingBytes := m.size;
    }

    function Value(): Instr
      reads this
    {
      Instr(isResumed, state, remainingBytes)
    }

    method GetRemainingSize() returns (total: nat)
      requires metadata.Valid() && |state.bits| == metadata.NumChunks()
      ensures total == LensWhere(metadata, state.bits, false, |state.bits|) < U64
    {
      total := 0;
      for idx := 0 to |state.bits|
        invariant total == RemainingUpTo(metadata, state.bits, idx)
      {
        if !state.bits[idx] {
          total := total + metadata.GetChunkSize(idx);
        }
      }
    }

    method LoadStateFromDisk(stateFile: Option<Bytes>, finalLen: Option<nat>, overwrite: bool)
      requires metadata.Valid() && Value() == New(metadata)
      modifies this
      ensures Value() == Loaded(metadata, stateFile, finalLen, overwrite)
    {
      if stateFile.Some? {
        isResumed := true;
        state := Load(stateFile.value, |state.bits|);
        remainingBytes := GetRemainingSize();
      } else if !overwrite && finalLen == Some(metadata.size) {
        isResumed := true;
        state := Ones(|state.bits|);
        remainingBytes := 0;
      }
    }
  }

  /** The body of the large-file loop of `parse`. */
  method ParseOne(mode: Mode, m: Metadata, store: FileStore, now: nat) returns (ins: JobInstruction)
    requires m.Valid()
    modifies store
    ensures fresh(ins) && ins.metadata == m
    ensures var (value, trace) := ParseLarge(mode, m, old(store.disk), now);
            && ins.Value() == value
            && store.disk == End(old(store.disk), trace) && store.history == old(store.history) + trace
  {
    ins := new JobInstruction(m);
    match mode {
      case Unique =>
        ins.LoadStateFromDisk(store.disk.state, FinalLen(store.disk), false);
        if AllSet(ins.state.bits) && store.disk.final.None? {
          store.Perform([CreateEmptyFinal(store.disk, now)]);
        }
      case Overwrite =>
        ins.LoadStateFromDisk(store.disk.state, FinalLen(store.disk), true);
        if AllSet(ins.state.bits) {
          store.Perform([CreateEmptyFinal(store.disk, now)]);
        }
      case Sync =>
        if store.disk.final.Some? && |store.disk.final.value.data| == m.size
           && store.disk.final.value.mtime == m.modified {
          ins.state := Ones(|ins.state.bits|);
          ins.remainingBytes := 0;
          ins.isResumed := true;
        } else {
          ins.LoadStateFromDisk(store.disk.state, FinalLen(store.disk), true);
          if AllSet(ins.state.bits) {
            store.Perform([CreateEmptyFinal(store.disk, now)]);
          }
        }
    }
  }

  /** The resolved relative path, as components. */
  function Rel(m: Metadata): Path {
    Components(m.relativePath)
  }

  ghost predicate AllValid(metas: seq<Metadata>) {
    forall i :: 0 <= i < |metas| ==> metas[i].Valid()
  }

  /** The first k turns of the large-file loop: every file is parsed in the tree the ones before it left. */
  function ParseAll(mode: Mode, s: TransferStaging, metas: seq<Metadata>, k: nat, tree: Tree, now: nat):
    (r: (seq<Instr>, Tree))
    requires k <= |metas| && AllValid(metas)
    ensures |r.0| == k
  {
    if k == 0 then ([], tree)
    else
      var (before, tree1) := ParseAll(mode, s, metas, k - 1, tree, now);
      var rel := Rel(metas[k - 1]);
      var (ins, trace) := ParseLarge(mode, metas[k - 1], View(tree1, s, rel), now);
      (before + [ins], Perform(tree1, s, rel, trace))
  }

  /** Every instruction of the list conserves bytes, whatever the files share. */
  lemma {:induction false} ParseAllConserves(mode: Mode, s: TransferStaging, metas: seq<Metadata>, k: nat, tree: Tree,
                                             now: nat)
    requires k <= |metas| && AllValid(metas)
    ensures forall i :: 0 <= i < k ==> Conserves(metas[i], ParseAll(mode, s, metas, k, tree, now).0[i])
  {
    hide ParseLarge, View, Perform, Conserves;
    if k > 0 {
      var tree1 := ParseAll(mode, s, metas, k - 1, tree, now).1;
      ParseAllConserves(mode, s, metas, k - 1, tree, now);
      ParseConserves(mode, metas[k - 1], View(tree1, s, Rel(metas[k - 1])), now);
    }
  }

  /** Where no file needs a disk operation, each is parsed as if it were alone, and the tree stays. */
  lemma {:induction false} ParseAllQuiet(mode: Mode, s: TransferStaging, metas: seq<Metadata>, k: nat, tree: Tree,
                                         now: nat)
    requires k <= |metas| && AllValid(metas)
    requires forall i :: 0 <= i < k ==> ParseLarge(mode, metas[i], View(tree, s, Rel(metas[i])), now).1 == []
    ensures ParseAll(mode, s, metas, k, tree, now).1 == tree
    ensures forall i :: 0 <= i < k ==>
              ParseAll(mode, s, metas, k, tree, now).0[i]
                == ParseLarge(mode, metas[i], View(tree, s, Rel(metas[i])), now).0
  {
    hide ParseLarge, View, Perform;
    if k > 0 {
      ParseAllQuiet(mode, s, metas, k - 1, tree, now);
      PerformNothing(tree, s, Rel(metas[k - 1]));
    }
  }

  method ParseInTree(mode: Mode, s: TransferStaging, m: Metadata, before: Tree, now: nat)
    returns (ins: JobInstruction, tree: Tree)
    requires m.Valid()
    ensures var (value, trace) := ParseLarge(mode, m, View(before, s, Rel(m)), now);
            && fresh(ins) && ins.metadata == m && ins.Value() == value
            && tree == Perform(before, s, Rel(m), trace)
  {
    hide ParseLarge, View, Put, End;
    var store := new FileStore(View(before, s, Rel(m)));
    ins := ParseOne(mode, m, store, now);
    tree := Put(before, s, Rel(m), store.disk);
  }

  /** The large-file loop of `parse`: one instruction per large file, in manifest order. */
  method ParseLargeFiles(mode: Mode, s: TransferStaging, metas: seq<Metadata>, before: Tree, now: nat)
    returns (instructions: seq<JobInstruction>, tree: Tree)
    requires AllValid(metas)
    ensures |instructions| == |metas| && tree == ParseAll(mode, s, metas, |metas|, before, now).1
    ensures forall i :: 0 <= i < |metas| ==>
              && fresh(instructions[i]) && instructions[i].metadata == metas[i]
              && instructions[i].Value() == ParseAll(mode, s, metas, |metas|, before, now).0[i]
  {
    instructions, tree := [], before;
    ghost var values: seq<Instr> := [];
    hide ParseLarge, View, Perform, Metadata.Valid;
    for k := 0 to |metas|
      invariant |instructions| == |values| == k && (values, tree) == ParseAll(mode, s, metas, k, before, now)
      invariant forall i :: 0 <= i < k ==> fresh(instructions[i]) && instructions[i].metadata == metas[i]
      invariant forall i :: 0 <= i < k ==> instructions[i].Value() == values[i]
    {
      var ins;
      ins, tree := ParseInTree(mode, s, metas[k], tree, now);
      instructions, values := instructions + [ins], values + [ins.Value()];
      assert (values, tree) == ParseAll(mode, s, metas, k + 1, before, now);
    }
  }
}
