/**
 The transfer over any number of rounds, as a transition system (crates/core/src/net/send.rs,
 crates/core/src/net/recv.rs): handshake, chunk streams arriving in any order and with any payload, lost
 streams, dropped connections, cancels, writer turns, disk faults, process crashes, the clean-up after a
 success, and whatever else happens in the directory tree meanwhile. All files live in one tree, so a step of one
 file could show in another; a crash takes every file at once, each wherever its current turn was.

 Hypotheses, all in `Transfer.Valid`, `Init` and `Enabled`: ids equal positions, the files' paths are separate, sources
 are fixed and not empty, no payload collides with a chunk's hash, and a handshake waits until the writers of the round
 before have ended.
 */
module Protocol {
  import opened Wrappers
  import opened Chunks
  import opened Bitmap
  import opened Disk
  import opened Writer
  import opened CrashSafety
  import opened Instruction
  import opened Staging
  import opened Tree
  import H = Handshake

  /** `kept`: the files the first handshake takes for finished, with what is at their final paths. */
  datatype Transfer = Transfer(jobs: seq<Job>, mode: Mode, hash: Hash, staging: TransferStaging, kept: map<nat, File>) {
    ghost predicate Valid(): (v: bool)
      ensures v ==> Sound()
    {
      Sound() && Apart()
    }

    /** Everything but that the files' paths are separate. */
    ghost predicate Sound() {
      && (forall f :: f in kept ==> f < |jobs| && SkipRule(mode, jobs[f].meta, Some(kept[f])))
      && (forall f :: 0 <= f < |jobs| ==> jobs[f].Valid() && jobs[f].mode == mode && CollisionFree(jobs[f], hash))
      && (forall f :: 0 <= f < |jobs| ==> jobs[f].meta.fileId == f)
    }

    /** No two files of the transfer meet in the tree. */
    ghost predicate Apart() {
      && (forall f :: 0 <= f < |jobs| ==> Placed(staging, Rel(jobs[f].meta)))
      && Separate(staging, Rels())
    }

    function Metas(): (metas: seq<Metadata>)
      ensures |metas| == |jobs| && forall f :: 0 <= f < |jobs| ==> metas[f] == jobs[f].meta
    {
      seq(|jobs|, f requires 0 <= f < |jobs| => jobs[f].meta)
    }

    function Rels(): (rels: seq<Path>)
      ensures |rels| == |jobs| && forall f :: 0 <= f < |jobs| ==> rels[f] == Rel(jobs[f].meta)
    {
      seq(|jobs|, f requires 0 <= f < |jobs| => Rel(jobs[f].meta))
    }

    /** What file f sees of the tree. */
    function DiskOf(tree: Tree, f: nat): Disk
      requires f < |jobs|
    {
      View(tree, staging, Rel(jobs[f].meta))
    }

    /** Operations of file f on the tree. */
    function Act(tree: Tree, f: nat, trace: seq<Disk>): Tree
      requires f < |jobs|
    {
      Perform(tree, staging, Rel(jobs[f].meta), trace)
    }

    /** The paths the transfer uses for its large files. */
    ghost predicate Uses(p: Path) {
      exists f :: 0 <= f < |jobs| && p in Owned(staging, Rel(jobs[f].meta))
    }
  }

  /** Cleaning: `process_large_files` has found no error and removes the staging directory. */
  datatype Phase = Idle | Live | Cleaning

  datatype System = System(
    phase: Phase,
    tree: Tree,
    sessions: seq<Session>,
    queues: seq<seq<Packet>>,  // each session's channel
    taken: seq<seq<Packet>>,   // what each writer has processed in this round
    announced: set<H.Task>,    // the sender's task list of this round
    todo: set<H.Task>,         // chunk streams the receiver still waits for
    arrived: map<H.Task, Bytes>,  // chunks given to `write_chunk`, with the payload each came with
    error: bool,               // an error of this round not hidden by a cancel
    cancelled: bool)           // the sticky cancel token of this round

  datatype Label =
    | Handshake(order: seq<H.FileId>, now: nat)
    | Arrive(task: H.Task, bytes: Bytes)
    | Lose(task: H.Task)
    | Abandon(task: H.Task)
    | Disconnect
    | CancelAll
    | Turn(file: nat, event: Event)
    | Fault(file: nat, event: Event, at: nat)
    | Finish
    | Sweep(gone: set<Path>)   // part of the clean-up: anything in the staging folder
    | Succeed
    | Elsewhere(path: Path, content: Option<File>)
    | Crash(inside: seq<Option<(Event, nat)>>)

  ghost predicate Shaped(t: Transfer, s: System) {
    && |s.sessions| == |s.queues| == |s.taken| == |t.jobs|
    && forall f :: 0 <= f < |s.sessions| ==> s.sessions[f].vec.Valid()
  }

  /** What the writer of file f can meet next. */
  ghost predicate CanTurn(t: Transfer, s: System, f: nat, event: Event)
    requires Shaped(t, s)
  {
    && s.phase == Live && f < |t.jobs| && s.sessions[f].status == Running
    && match event
       case Cancel => s.cancelled
       case Close => s.queues[f] == [] && s.todo == {}
       case Receive(packet, now, _) =>
         s.queues[f] != [] && packet == s.queues[f][0] && ClockApart(t.jobs[f], t.DiskOf(s.tree, f), now)
  }

  function TurnOf(t: Transfer, s: System, f: nat, event: Event): (Session, seq<Disk>)
    requires f < |t.jobs| == |s.sessions| && s.sessions[f].vec.Valid()
  {
    Step(t.jobs[f].meta, t.hash, s.sessions[f], t.DiskOf(s.tree, f), event)
  }

  /** The chunks given to `write_chunk` in this round. */
  ghost function Handed(s: System): set<H.Task> {
    s.arrived.Keys
  }

  ghost predicate Ended(x: Session) {
    x.status != Running
  }

  ghost predicate FailedWriter(x: Session) {
    x.status == Rejected || x.status == Faulted
  }

  /** An error the round keeps: writers are drained last, and their errors are dropped under a cancelled token. */
  ghost predicate KeepsError(s: System) {
    s.error || (!s.cancelled && exists f :: 0 <= f < |s.sessions| && FailedWriter(s.sessions[f]))
  }

  /** The token is looked at once more before the error. */
  ghost predicate Success(s: System) {
    !s.cancelled && !KeepsError(s)
  }

  ghost predicate Enabled(t: Transfer, s: System, l: Label)
    requires Shaped(t, s)
  {
    match l
    case Handshake(order, _) => s.phase == Idle && H.Permutes(order, |t.jobs|)
    case Arrive(task, _) => s.phase == Live && task in s.todo
    case Lose(task) => s.phase == Live && task in s.todo
    case Abandon(task) => s.phase == Live && task in s.todo && s.cancelled
    case Disconnect => s.phase == Live
    case CancelAll => s.phase == Live
    case Turn(f, event) => CanTurn(t, s, f, event)
    case Fault(f, event, at) => CanTurn(t, s, f, event) && at <= |TurnOf(t, s, f, event).1|
    case Finish => s.phase == Live && s.todo == {} && forall f :: 0 <= f < |s.sessions| ==> Ended(s.sessions[f])
    case Sweep(gone) => s.phase == Cleaning && forall p :: p in gone ==> InStaging(t.staging, p)
    case Succeed => s.phase == Cleaning
    case Elsewhere(path, _) => !t.Uses(path)
    case Crash(inside) => Caught(t, s, inside)
  }

  /** A crash finds each file between two turns, or `at` operations into one. */
  ghost predicate Caught(t: Transfer, s: System, inside: seq<Option<(Event, nat)>>)
    requires Shaped(t, s)
  {
    && |inside| == |t.jobs|
    && forall f :: 0 <= f < |inside| && inside[f].Some? ==>
         CanTurn(t, s, f, inside[f].value.0) && inside[f].value.1 <= |TurnOf(t, s, f, inside[f].value.0).1|
  }

  /** The operations of file f's turn that were done before the crash. */
  ghost function Begun(t: Transfer, s: System, inside: seq<Option<(Event, nat)>>, f: nat): seq<Disk>
    requires Shaped(t, s) && Caught(t, s, inside) && f < |t.jobs|
  {
    if inside[f].None? then [] else TurnOf(t, s, f, inside[f].value.0).1[..inside[f].value.1]
  }

  /** The tree after a crash, the first k files done. */
  ghost function CrashTree(t: Transfer, s: System, inside: seq<Option<(Event, nat)>>, k: nat): Tree
    requires Shaped(t, s) && Caught(t, s, inside) && k <= |t.jobs|
  {
    if k == 0 then s.tree else t.Act(CrashTree(t, s, inside, k - 1), k - 1, Begun(t, s, inside, k - 1))
  }

  function Parsed(t: Transfer, s: System, now: nat): (r: (seq<Instr>, Tree))
    requires AllValid(t.Metas())
    ensures |r.0| == |t.jobs|
  {
    ParseAll(t.mode, t.staging, t.Metas(), |t.jobs|, s.tree, now)
  }

  lemma ParsedConserves(t: Transfer, s: System, now: nat)
    requires t.Sound()
    ensures AllValid(t.Metas())
    ensures forall f :: 0 <= f < |t.jobs| ==> Conserves(t.jobs[f].meta, Parsed(t, s, now).0[f])
  {
    ParseAllConserves(t.mode, t.staging, t.Metas(), |t.jobs|, s.tree, now);
  }

  ghost function States(t: Transfer, s: System, now: nat): (states: seq<H.Bits>)
    requires t.Sound()
    ensures |states| == |t.jobs|
  {
    seq(|t.jobs|, f requires 0 <= f < |t.jobs| => Parsed(t, s, now).0[f].vec.bits)
  }

  lemma MetasAligned(t: Transfer)
    requires t.Sound()
    ensures H.Aligned(t.Metas()) && H.Usable(H.SessionsOf(t.Metas()))
    ensures forall id: H.FileId :: id in H.SessionsOf(t.Metas()) <==> id < |t.jobs|
  {
    hide Transfer.Apart;
    var none := seq(|t.jobs|, f requires 0 <= f < |t.jobs| && t.jobs[f].Valid() => Falses(t.jobs[f].meta.NumChunks()));
    H.AlignedSessions(t.Metas(), none);
  }

  /** The sender's task list, from the bitmaps it was sent. */
  ghost function TasksOf(t: Transfer, order: seq<H.FileId>, states: seq<H.Bits>): set<H.Task>
    requires t.Sound() && H.Permutes(order, |t.jobs|)
  {
    MetasAligned(t);
    hide Transfer.Valid, Transfer.Sound, H.Flat, H.SessionsOf;
    set task | task in H.Flat(H.SessionsOf(t.Metas()), order, states)
  }

  /** The receiver's sessions, none of them spawned yet. */
  ghost function SessionsFrom(t: Transfer, s: System, now: nat): (sessions: seq<Session>)
    requires t.Sound()
    ensures |sessions| == |t.jobs| && forall f :: 0 <= f < |sessions| ==> sessions[f].vec.Valid()
  {
    ParsedConserves(t, s, now);
    hide Transfer.Valid, Transfer.Sound, Parsed;
    seq(|t.jobs|, f requires 0 <= f < |t.jobs| => Opened(Parsed(t, s, now).0[f]))
  }

  /** The whole round is set up from the tree. */
  ghost function Shake(t: Transfer, s: System, order: seq<H.FileId>, now: nat): (r: System)
    requires t.Sound() && Shaped(t, s) && H.Permutes(order, |t.jobs|)
    ensures Shaped(t, r)
  {
    ParsedConserves(t, s, now);
    hide Transfer.Valid, Transfer.Sound, Parsed, TasksOf, SessionsFrom;
    var tasks := TasksOf(t, order, States(t, s, now));
    var none := seq(|t.jobs|, _ => []);
    s.(phase := Live, tree := Parsed(t, s, now).1, sessions := SessionsFrom(t, s, now), queues := none, taken := none,
       announced := tasks, todo := tasks, arrived := map[], error := false, cancelled := false)
  }

  /** `write_chunk`: the first packet spawns the writer; a writer that has ended takes nothing, silently. An
      unknown file id or chunk is an error. */
  ghost function Deliver(t: Transfer, s: System, task: H.Task, bytes: Bytes): (r: System)
    requires t.Sound() && Shaped(t, s)
    ensures Shaped(t, r)
  {
    var f := task.0;
    var s1 := s.(todo := s.todo - {task}, arrived := s.arrived[task := bytes]);
    if f >= |t.jobs| || task.1 >= t.jobs[f].meta.NumChunks() then s1.(error := s.error || !s.cancelled)
    else if s.sessions[f].status == Waiting || s.sessions[f].status == Running then
      var packet := Packet(task.1, t.hash(t.jobs[f].Chunk(task.1)), bytes);
      s1.(sessions := s.sessions[f := s.sessions[f].(status := Running)],
          queues := s.queues[f := s.queues[f] + [packet]])
    else s1
  }

  ghost function TurnTo(t: Transfer, s: System, f: nat, event: Event): (r: System)
    requires Shaped(t, s) && CanTurn(t, s, f, event)
    ensures Shaped(t, r)
  {
    var (x, trace) := TurnOf(t, s, f, event);
    var rest := if x.status == Running then s.queues[f][1..] else [];
    var done := if event.Receive? then s.taken[f] + [event.packet] else s.taken[f];
    s.(tree := t.Act(s.tree, f, trace), sessions := s.sessions[f := x],
       queues := s.queues[f := rest], taken := s.taken[f := done], cancelled := s.cancelled || x.status == Rejected)
  }

  /** An I/O error ends the writer wherever its turn had got to. */
  ghost function FaultTo(t: Transfer, s: System, f: nat, trace: seq<Disk>): (r: System)
    requires Shaped(t, s) && f < |t.jobs|
    ensures Shaped(t, r)
  {
    s.(tree := t.Act(s.tree, f, trace), sessions := s.sessions[f := s.sessions[f].(status := Faulted)],
       queues := s.queues[f := []])
  }

  ghost function Apply(t: Transfer, s: System, l: Label): (r: System)
    requires t.Sound() && Shaped(t, s) && Enabled(t, s, l)
    ensures Shaped(t, r)
  {
    match l
    case Handshake(order, now) => Shake(t, s, order, now)
    case Arrive(task, bytes) => Deliver(t, s, task, bytes)
    case Lose(task) => s.(todo := s.todo - {task}, error := s.error || !s.cancelled)
    case Abandon(task) => s.(todo := s.todo - {task})
    case Disconnect => s.(todo := {}, error := true)
    case CancelAll => s.(cancelled := true)
    case Turn(f, event) => TurnTo(t, s, f, event)
    case Fault(f, event, at) => FaultTo(t, s, f, TurnOf(t, s, f, event).1[..at])
    case Finish => s.(phase := if Success(s) then Cleaning else Idle)
    case Sweep(gone) => s.(tree := s.tree - gone)
    case Succeed => s.(phase := Idle)
    case Elsewhere(path, content) => s.(tree := Write(s.tree, path, content))
    case Crash(inside) => s.(phase := Idle, tree := CrashTree(t, s, inside, |t.jobs|))
  }

  ghost predicate Runs(t: Transfer, s: System, labels: seq<Label>, last: System): (r: bool)
    requires t.Sound() && Shaped(t, s)
    ensures r ==> Shaped(t, last)
    decreases |labels|
  {
    if labels == [] then last == s
    else Enabled(t, s, labels[0]) && Runs(t, Apply(t, s, labels[0]), labels[1..], last)
  }

  /** A kept file stays as it was; any other is one a crashed or paused transfer of the same file can have left. */
  ghost predicate DiskInv(t: Transfer, f: nat, d: Disk)
    requires t.Valid() && f < |t.jobs|
  {
    if f in t.kept then d.final == Some(t.kept[f]) && (d.state == None || t.mode == Sync) else FileInv(t.jobs[f], d)
  }

  ghost predicate Init(t: Transfer, s: System)
    requires t.Valid()
  {
    Shaped(t, s) && s.phase == Idle && forall f :: 0 <= f < |t.jobs| ==> DiskInv(t, f, t.DiskOf(s.tree, f))
  }

  ghost predicate Queued(queue: seq<Packet>, i: nat) {
    exists k :: 0 <= k < |queue| && queue[k].index == i
  }

  /** Every chunk still missing in memory is on its way. */
  ghost predicate Covered(s: System, f: nat)
    requires f < |s.sessions| == |s.queues|
  {
    !s.error && !s.cancelled && (s.sessions[f].status == Waiting || s.sessions[f].status == Running) ==>
      forall i: nat :: i < |s.sessions[f].vec.bits| && !s.sessions[f].vec.bits[i] ==>
        (f, i) in s.todo || Queued(s.queues[f], i)
  }

  /** Every packet the writer has processed in this round matched its hash. */
  ghost predicate Matched(hash: Hash, taken: seq<Packet>) {
    forall k :: 0 <= k < |taken| ==> taken[k].hash == hash(taken[k].bytes)
  }

  ghost predicate Finished(t: Transfer, f: nat, d: Disk)
    requires f < |t.jobs|
  {
    f !in t.kept ==> d.state == None && Exact(t.jobs[f], d)
  }

  /** What a session's status promises about its disk and about the flags of the round. */
  ghost predicate Promise(t: Transfer, f: nat, x: Session, d: Disk, flagged: bool, cancelled: bool)
    requires t.Valid() && f < |t.jobs|
  {
    var j := t.jobs[f];
    match x.status
    case Waiting => if x.Complete() then Finished(t, f, d) else SessionInv(j, x, d)
    case Running => SessionInv(j, x, d)
    case Committed => Exact(j, d) && d.state == None && x.Complete()
    case Drained => flagged && Retained(j, x, d)
    case Cancelled => cancelled && Retained(j, x, d)
    case Rejected => cancelled
    case Faulted => true
  }

  ghost predicate SlotInv(t: Transfer, s: System, f: nat)
    requires t.Valid() && Shaped(t, s) && f < |t.jobs|
  {
    var (j, x, d) := (t.jobs[f], s.sessions[f], t.DiskOf(s.tree, f));
    && |x.vec.bits| == j.meta.NumChunks()
    && (f in t.kept ==> x.status == Waiting && x.Complete())
    && Covered(s, f)
    && (forall k :: 0 <= k < |s.queues[f]| ==> Honest(j, t.hash, s.queues[f][k]))
    && (x.status != Rejected ==> Matched(t.hash, s.taken[f]))
    && (x.status != Running ==> s.queues[f] == [])
    && Promise(t, f, x, d, s.error || s.cancelled, s.cancelled)
  }

  ghost predicate LiveInv(t: Transfer, s: System)
    requires t.Valid() && Shaped(t, s)
  {
    && (forall f :: 0 <= f < |t.jobs| ==> SlotInv(t, s, f))
    && (forall task :: task in s.todo ==>
          && task.0 < |t.jobs| && task.1 < t.jobs[task.0].meta.NumChunks() == |s.sessions[task.0].vec.bits|
          && (s.sessions[task.0].status == Waiting ==> !s.sessions[task.0].vec.bits[task.1]))
    && s.todo + Handed(s) <= s.announced
    && (!s.error && !s.cancelled ==> s.announced == s.todo + Handed(s))
  }

  ghost predicate DoneInv(t: Transfer, s: System)
    requires t.Valid() && Shaped(t, s)
  {
    && (forall f :: 0 <= f < |t.jobs| ==> Finished(t, f, t.DiskOf(s.tree, f)))
    && Handed(s) == s.announced
    && (forall f :: 0 <= f < |t.jobs| ==> s.sessions[f].status == Waiting || s.sessions[f].status == Committed)
    && (forall f :: 0 <= f < |t.jobs| ==> Matched(t.hash, s.taken[f]))
  }

  /** The invariant of every run. */
  ghost predicate Inv(t: Transfer, s: System)
    requires t.Valid()
  {
    && Shaped(t, s)
    && (forall f :: 0 <= f < |t.jobs| ==> DiskInv(t, f, t.DiskOf(s.tree, f)))
    && (s.phase == Live ==> LiveInv(t, s))
    && (s.phase == Cleaning ==> DoneInv(t, s))
  }

  /** An operation of file f moves what f sees as its trace says, and what no other file sees. */
  lemma ActMoves(t: Transfer, tree: Tree, f: nat, trace: seq<Disk>)
    requires t.Valid() && f < |t.jobs|
    ensures t.DiskOf(t.Act(tree, f, trace), f) == End(t.DiskOf(tree, f), trace)
    ensures forall g :: 0 <= g < |t.jobs| && g != f ==> t.DiskOf(t.Act(tree, f, trace), g) == t.DiskOf(tree, g)
  {
    hide View, Perform, End, Separate, Placed;
    PerformMoves(tree, t.staging, t.Rels(), f, trace);
    assert forall g :: 0 <= g < |t.jobs| ==> t.Rels()[g] == Rel(t.jobs[g].meta);
  }

  /** Nothing of file f is moved. */
  ghost predicate Same(t: Transfer, s: System, r: System, f: nat)
    requires Shaped(t, s) && Shaped(t, r) && f < |t.jobs|
  {
    && r.sessions[f] == s.sessions[f] && r.queues[f] == s.queues[f] && r.taken[f] == s.taken[f]
    && t.DiskOf(r.tree, f) == t.DiskOf(s.tree, f)
  }

  /** A step that leaves file f alone, and takes no awaited chunk of it without flagging the round, keeps its slot. */
  lemma SlotFrame(t: Transfer, s: System, r: System, f: nat)
    requires t.Valid() && Shaped(t, s) && Shaped(t, r) && f < |t.jobs| && SlotInv(t, s, f)
    requires Same(t, s, r, f)
    requires (s.error ==> r.error) && (s.cancelled ==> r.cancelled)
    requires !r.error && !r.cancelled ==> forall i: nat :: (f, i) in s.todo ==> (f, i) in r.todo
    ensures SlotInv(t, r, f)
  {
    hide SessionInv, Finished, Exact, Honest, Queued, Matched, Retained, Transfer.DiskOf, Transfer.Valid,
         Transfer.Sound;
  }

  /** Lost and abandoned streams, dropped connections and cancels: every change is flagged. */
  lemma {:induction false} FlagKeeps(t: Transfer, s: System, l: Label)
    requires t.Valid() && Inv(t, s) && Enabled(t, s, l)
    requires l.Lose? || l.Abandon? || l.Disconnect? || l.CancelAll?
    ensures Inv(t, Apply(t, s, l))
  {
    hide DiskInv, SlotInv, TurnOf, Exact, Transfer.DiskOf, Transfer.Valid, Transfer.Sound;
    var r := Apply(t, s, l);
    forall f | 0 <= f < |t.jobs|
      ensures SlotInv(t, r, f)
    {
      SlotFrame(t, s, r, f);
    }
  }

  lemma SlotLength(t: Transfer, s: System, f: nat)
    requires t.Valid() && Shaped(t, s) && f < |t.jobs| && SlotInv(t, s, f)
    ensures |s.sessions[f].vec.bits| == t.jobs[f].meta.NumChunks()
  {
  }

  /** A step inside a round that moves file f only, and keeps its slot, keeps the invariant. */
  lemma OneFileMoves(t: Transfer, s: System, r: System, f: nat)
    requires t.Valid() && Inv(t, s) && s.phase == r.phase == Live && f < |t.jobs| && Shaped(t, r)
    requires forall g :: 0 <= g < |t.jobs| && g != f ==> Same(t, s, r, g)
    requires SlotInv(t, r, f) && DiskInv(t, f, t.DiskOf(r.tree, f)) && r.sessions[f].status != Waiting
    requires (s.error ==> r.error) && (s.cancelled ==> r.cancelled)
    requires r.todo <= s.todo && forall task :: task in s.todo && task.0 != f ==> task in r.todo
    requires r.announced == s.announced && r.todo + Handed(r) == s.todo + Handed(s)
    ensures Inv(t, r)
  {
    hide DiskInv, Promise, Covered, Honest, Matched, Transfer.DiskOf, Transfer.Apart;
    hide CollisionFree, Metadata.NumChunks;
    SlotLength(t, r, f);
    hide SlotInv;
    forall g | 0 <= g < |t.jobs|
      ensures SlotInv(t, r, g) && DiskInv(t, g, t.DiskOf(r.tree, g)) && (g != f ==> r.sessions[g] == s.sessions[g])
    {
      if g != f {
        assert Same(t, s, r, g);
        SlotFrame(t, s, r, g);
      }
    }
  }

  lemma {:induction false} ArriveKeeps(t: Transfer, s: System, task: H.Task, bytes: Bytes)
    requires t.Valid() && Inv(t, s) && Enabled(t, s, Arrive(task, bytes))
    ensures Inv(t, Deliver(t, s, task, bytes))
  {
    ArriveSlot(t, s, task, bytes);
    ArriveMoves(t, s, task, bytes);
    hide *;
    OneFileMoves(t, s, Deliver(t, s, task, bytes), task.0);
  }

  lemma {:induction false} ArriveMoves(t: Transfer, s: System, task: H.Task, bytes: Bytes)
    requires t.Valid() && Inv(t, s) && s.phase == Live && task in s.todo
    ensures var r, f := Deliver(t, s, task, bytes), task.0;
            && r.phase == Live && f < |t.jobs| && DiskInv(t, f, t.DiskOf(r.tree, f)) && r.sessions[f].status != Waiting
            && (forall g :: 0 <= g < |t.jobs| && g != f ==> Same(t, s, r, g))
            && r.tree == s.tree && r.error == s.error && r.cancelled == s.cancelled
            && r.todo == s.todo - {task} && r.announced == s.announced && r.todo + Handed(r) == s.todo + Handed(s)
  {
    hide DiskInv, SlotInv, Job.Chunk, Exact, Transfer.DiskOf, Transfer.Valid, Transfer.Sound;
  }

  /** The chunk has moved from the awaited streams into its writer's queue. */
  lemma ArriveCovered(t: Transfer, s: System, task: H.Task, bytes: Bytes)
    requires t.Valid() && Shaped(t, s) && task.0 < |t.jobs| && Covered(s, task.0)
    requires task.1 < t.jobs[task.0].meta.NumChunks() == |s.sessions[task.0].vec.bits|
    ensures Covered(Deliver(t, s, task, bytes), task.0)
  {
    hide Transfer.Apart, CollisionFree;
    var r := Deliver(t, s, task, bytes);
    var f := task.0;
    var x, y := s.sessions[f], r.sessions[f];
    if x.status == Waiting || x.status == Running {
      var packet := Packet(task.1, t.hash(t.jobs[f].Chunk(task.1)), bytes);
      var queue := s.queues[f];
      assert r.queues[f] == queue + [packet] && r.queues[f][|queue|].index == task.1;
      forall i: nat | Queued(queue, i)
        ensures Queued(r.queues[f], i)
      {
        var k :| 0 <= k < |queue| && queue[k].index == i;
        assert r.queues[f][k].index == i;
      }
    }
  }

  lemma {:induction false} ArriveSlot(t: Transfer, s: System, task: H.Task, bytes: Bytes)
    requires t.Valid() && Inv(t, s) && Enabled(t, s, Arrive(task, bytes))
    ensures SlotInv(t, Deliver(t, s, task, bytes), task.0)
  {
    hide DiskInv, Promise, Session.Complete, Matched, Transfer.DiskOf, Transfer.Apart, CollisionFree;
    var r := Deliver(t, s, task, bytes);
    var f := task.0;
    assert SlotInv(t, s, f);
    ArriveCovered(t, s, task, bytes);
    hide Covered;
    var x := s.sessions[f];
    if x.status == Waiting || x.status == Running {
      var packet := Packet(task.1, t.hash(t.jobs[f].Chunk(task.1)), bytes);
      assert r.queues[f] == s.queues[f] + [packet] && Honest(t.jobs[f], t.hash, packet);
      if x.status == Waiting { NotComplete(x, task.1); }
      StartedPromise(t, f, x, t.DiskOf(s.tree, f), s.error || s.cancelled, s.cancelled);
    }
  }

  lemma NotComplete(x: Session, i: nat)
    requires i < |x.vec.bits| && !x.vec.bits[i]
    ensures !x.Complete()
  {
  }

  lemma StartedPromise(t: Transfer, f: nat, x: Session, d: Disk, flagged: bool, cancelled: bool)
    requires t.Valid() && f < |t.jobs| && Promise(t, f, x, d, flagged, cancelled)
    requires x.status == Running || (x.status == Waiting && !x.Complete())
    ensures Promise(t, f, x.(status := Running), d, flagged, cancelled)
  {
    hide Transfer.Apart;
  }

  lemma TurnAllowed(t: Transfer, s: System, f: nat, event: Event)
    requires t.Valid() && Inv(t, s) && CanTurn(t, s, f, event)
    ensures var d := t.DiskOf(s.tree, f);
            && ValidEvent(t.jobs[f], t.hash, d, event) && SessionInv(t.jobs[f], s.sessions[f], d)
            && f !in t.kept && FileInv(t.jobs[f], d) && CollisionFree(t.jobs[f], t.hash)
  {
    assert SlotInv(t, s, f);
    hide FileInv, SessionInv, Covered, Exact, Honest, ClockApart, Transfer.DiskOf, Transfer.Apart, Matched;
  }

  /** Nothing awaited and nothing queued: the bitmap of an unflagged round is complete. */
  lemma NothingLeft(s: System, f: nat)
    requires f < |s.sessions| == |s.queues| && Covered(s, f) && s.todo == {} && s.queues[f] == []
    ensures !s.error && !s.cancelled && (s.sessions[f].status == Waiting || s.sessions[f].status == Running) ==>
              s.sessions[f].Complete()
  {
  }

  lemma TurnCovered(t: Transfer, s: System, f: nat, event: Event)
    requires Shaped(t, s) && CanTurn(t, s, f, event) && Covered(s, f)
    requires var x := TurnOf(t, s, f, event).0;
             x.status != Waiting &&
             (x.status == Running ==>
               && event.Receive? && event.packet.index < |s.sessions[f].vec.bits|
               && x.vec.bits == s.sessions[f].vec.bits[event.packet.index := true])
    ensures Covered(TurnTo(t, s, f, event), f)
  {
    hide Step, ClockApart, Transfer.DiskOf, Transfer.Act;
    var r := TurnTo(t, s, f, event);
    var x := r.sessions[f];
    if x.status == Running && !r.error && !r.cancelled {
      var queue := s.queues[f];
      forall i: nat | i < |x.vec.bits| && !x.vec.bits[i]
        ensures (f, i) in r.todo || Queued(r.queues[f], i)
      {
        assert (f, i) in s.todo || Queued(queue, i);
        if Queued(queue, i) {
          var k :| 0 <= k < |queue| && queue[k].index == i;
          assert k > 0 && r.queues[f][k - 1].index == i;
        }
      }
    }
  }

  lemma TurnMoves(t: Transfer, s: System, f: nat, event: Event)
    requires t.Valid() && Shaped(t, s) && CanTurn(t, s, f, event)
    ensures var r := TurnTo(t, s, f, event);
            && r.phase == s.phase == Live && f < |t.jobs| && r.sessions[f] == TurnOf(t, s, f, event).0
            && t.DiskOf(r.tree, f) == End(t.DiskOf(s.tree, f), TurnOf(t, s, f, event).1)
            && (forall g :: 0 <= g < |t.jobs| && g != f ==> Same(t, s, r, g))
            && (forall k :: 0 <= k < |r.queues[f]| ==> k + 1 < |s.queues[f]| && r.queues[f][k] == s.queues[f][k + 1])
            && (r.sessions[f].status != Running ==> r.queues[f] == [])
            && r.taken[f] == (if event.Receive? then s.taken[f] + [event.packet] else s.taken[f])
            && r.error == s.error && r.cancelled == (s.cancelled || r.sessions[f].status == Rejected)
            && r.todo == s.todo && r.announced == s.announced && r.arrived == s.arrived
  {
    OnlyPacketsGoOn(t, s, f, event);
    ActMoves(t, s.tree, f, TurnOf(t, s, f, event).1);
    hide TurnOf, End, ClockApart, Transfer.DiskOf, Transfer.Act, Transfer.Valid, Transfer.Sound;
  }

  /** A writer that runs on has taken the packet at the head of its queue. */
  lemma OnlyPacketsGoOn(t: Transfer, s: System, f: nat, event: Event)
    requires Shaped(t, s) && CanTurn(t, s, f, event)
    ensures TurnOf(t, s, f, event).0.status == Running ==> s.queues[f] != []
  {
    hide ClockApart, Transfer.DiskOf;
  }

  lemma MatchedOn(hash: Hash, before: seq<Packet>, event: Event, after: seq<Packet>)
    requires Matched(hash, before) && after == (if event.Receive? then before + [event.packet] else before)
    requires event.Receive? ==> event.packet.hash == hash(event.packet.bytes)
    ensures Matched(hash, after)
  {
  }

  /** What one turn of a run gives: a safe disk, a session in order, and flags for every end without a commit. */
  lemma TurnStep(t: Transfer, s: System, f: nat, event: Event)
    requires t.Valid() && Inv(t, s) && CanTurn(t, s, f, event)
    ensures var (x, trace) := TurnOf(t, s, f, event);
            && FileInv(t.jobs[f], End(t.DiskOf(s.tree, f), trace)) && f !in t.kept
            && TurnInv(t.jobs[f], x, End(t.DiskOf(s.tree, f), trace))
            && |x.vec.bits| == |s.sessions[f].vec.bits| == t.jobs[f].meta.NumChunks()
            && (x.status == Drained ==> s.error || s.cancelled) && (x.status == Cancelled ==> s.cancelled)
            && (x.status == Running ==> event.Receive? && event.packet.index < |x.vec.bits|
                                        && x.vec.bits == s.sessions[f].vec.bits[event.packet.index := true])
            && (event.Receive? && x.status != Rejected ==> event.packet.hash == t.hash(event.packet.bytes))
  {
    TurnAllowed(t, s, f, event);
    assert SlotInv(t, s, f);
    if event == Close { NothingLeft(s, f); }
    hide Transfer.DiskOf, Transfer.Apart, CollisionFree, Matched, Inv, Covered, TraceInv, ClockApart;
    assert event == Close ==> s.error || s.cancelled;
    StepSafe(t.jobs[f], t.hash, s.sessions[f], t.DiskOf(s.tree, f), event);
    hide Step, FileInv, SessionInv, TurnInv, End, Promise;
  }

  lemma TurnPromise(t: Transfer, f: nat, x: Session, d: Disk, flagged: bool, cancelled: bool)
    requires t.Valid() && f < |t.jobs| && f !in t.kept && TurnInv(t.jobs[f], x, d)
    requires (x.status == Drained ==> flagged) && (x.status == Cancelled || x.status == Rejected ==> cancelled)
    ensures Promise(t, f, x, d, flagged, cancelled) && x.status != Waiting
  {
    hide Transfer.Apart, SessionInv, Exact, Retained;
  }

  lemma {:induction false} TurnSlot(t: Transfer, s: System, f: nat, event: Event)
    requires t.Valid() && Inv(t, s) && CanTurn(t, s, f, event)
    ensures var r := TurnTo(t, s, f, event);
            && SlotInv(t, r, f) && DiskInv(t, f, t.DiskOf(r.tree, f))
            && |r.sessions[f].vec.bits| == |s.sessions[f].vec.bits| && r.sessions[f].status != Waiting
  {
    TurnStep(t, s, f, event);
    TurnMoves(t, s, f, event);
    assert SlotInv(t, s, f);
    hide Inv, Promise, Matched, TurnInv, FileInv, Transfer.Apart, Transfer.DiskOf, CollisionFree, End, Honest;
    var r := TurnTo(t, s, f, event);
    var x, d := r.sessions[f], t.DiskOf(r.tree, f);
    TurnPromise(t, f, x, d, r.error || r.cancelled, r.cancelled);
    TurnCovered(t, s, f, event);
    if x.status != Rejected { MatchedOn(t.hash, s.taken[f], event, r.taken[f]); }
    hide TurnTo, TurnOf, CanTurn, Covered;
  }

  lemma TurnKeeps(t: Transfer, s: System, f: nat, event: Event)
    requires t.Valid() && Inv(t, s) && CanTurn(t, s, f, event)
    ensures Inv(t, TurnTo(t, s, f, event))
  {
    TurnSlot(t, s, f, event);
    TurnMoves(t, s, f, event);
    hide *;
    OneFileMoves(t, s, TurnTo(t, s, f, event), f);
  }

  /** Every disk state inside a turn keeps the resume invariant. */
  lemma {:induction false} InsideTurn(t: Transfer, s: System, f: nat, event: Event, at: nat)
    requires t.Valid() && Inv(t, s) && CanTurn(t, s, f, event) && at <= |TurnOf(t, s, f, event).1|
    ensures DiskInv(t, f, End(t.DiskOf(s.tree, f), TurnOf(t, s, f, event).1[..at]))
  {
    TurnAllowed(t, s, f, event);
    hide Inv, ClockApart, FileInv, SessionInv, CollisionFree, Transfer.DiskOf, Transfer.Apart;
    StepSafe(t.jobs[f], t.hash, s.sessions[f], t.DiskOf(s.tree, f), event);
    hide Step;
  }

  lemma FaultKeeps(t: Transfer, s: System, f: nat, trace: seq<Disk>)
    requires t.Valid() && Inv(t, s) && s.phase == Live && f < |t.jobs| && s.sessions[f].status == Running
    requires DiskInv(t, f, End(t.DiskOf(s.tree, f), trace))
    ensures Inv(t, FaultTo(t, s, f, trace))
  {
    FaultSlot(t, s, f, trace);
    ActMoves(t, s.tree, f, trace);
    hide DiskInv, Exact, SlotInv, Transfer.DiskOf, Transfer.Act, Transfer.Valid, Transfer.Sound;
    OneFileMoves(t, s, FaultTo(t, s, f, trace), f);
  }

  lemma {:induction false} FaultSlot(t: Transfer, s: System, f: nat, trace: seq<Disk>)
    requires t.Valid() && Inv(t, s) && s.phase == Live && f < |t.jobs| && s.sessions[f].status == Running
    ensures SlotInv(t, FaultTo(t, s, f, trace), f)
  {
    assert SlotInv(t, s, f);
    hide DiskInv, Finished, Exact, SessionInv, Retained, Transfer.DiskOf, Transfer.Act, Transfer.Apart, Matched, Honest,
         Queued, CollisionFree;
  }

  /** Each file is left by the crash as its own turn had it. */
  lemma {:induction false} CrashMoves(t: Transfer, s: System, inside: seq<Option<(Event, nat)>>, k: nat)
    requires t.Valid() && Shaped(t, s) && Caught(t, s, inside) && k <= |t.jobs|
    ensures forall f :: 0 <= f < |t.jobs| ==>
              t.DiskOf(CrashTree(t, s, inside, k), f) ==
                if f < k then End(t.DiskOf(s.tree, f), Begun(t, s, inside, f)) else t.DiskOf(s.tree, f)
  {
    hide Caught, Begun, Transfer.DiskOf, Transfer.Act, Transfer.Valid, Transfer.Sound, End;
    if k > 0 {
      CrashMoves(t, s, inside, k - 1);
      ActMoves(t, CrashTree(t, s, inside, k - 1), k - 1, Begun(t, s, inside, k - 1));
    }
  }

  lemma {:induction false} CrashKeeps(t: Transfer, s: System, inside: seq<Option<(Event, nat)>>)
    requires t.Valid() && Inv(t, s) && Enabled(t, s, Crash(inside))
    ensures Inv(t, Apply(t, s, Crash(inside)))
  {
    var r := Apply(t, s, Crash(inside));
    CrashMoves(t, s, inside, |t.jobs|);
    hide DiskInv, Transfer.DiskOf, Transfer.Act, Transfer.Valid, Transfer.Sound, TurnOf, CanTurn;
    forall f | 0 <= f < |t.jobs|
      ensures DiskInv(t, f, t.DiskOf(r.tree, f))
    {
      if inside[f].Some? { InsideTurn(t, s, f, inside[f].value.0, inside[f].value.1); }
    }
  }

  /** Success: every file not committed in this round was complete, and exact, before it. */
  lemma {:induction false} FinishKeeps(t: Transfer, s: System)
    requires t.Valid() && Inv(t, s) && Enabled(t, s, Finish)
    ensures Inv(t, Apply(t, s, Finish))
  {
    if Success(s) {
      forall f | 0 <= f < |t.jobs|
        ensures Finished(t, f, t.DiskOf(s.tree, f)) && Matched(t.hash, s.taken[f])
        ensures s.sessions[f].status == Waiting || s.sessions[f].status == Committed
      {
        assert SlotInv(t, s, f) && Covered(s, f);
        assert Ended(s.sessions[f]) && !FailedWriter(s.sessions[f]);
        if s.sessions[f].status == Waiting { NothingLeft(s, f); }
        hide SessionInv, Transfer.DiskOf, Transfer.Apart;
      }
    }
    hide DiskInv, Finished, SlotInv, Transfer.DiskOf, Transfer.Apart, Matched;
  }

  lemma SweptDisk(t: Transfer, tree: Tree, gone: set<Path>, f: nat)
    requires t.Valid() && f < |t.jobs| && forall p :: p in gone ==> InStaging(t.staging, p)
    ensures var d, d1 := t.DiskOf(tree, f), t.DiskOf(tree - gone, f);
            d1.final == d.final && (d1.part == d.part || d1.part == None) && (d1.state == d.state || d1.state == None)
  {
    assert !InStaging(t.staging, t.staging.FinalPath(t.Rels()[f]));
    SweepSpares(tree, t.staging, Rel(t.jobs[f].meta), gone);
  }

  /** Removing the staging folder after a success, in any order and stopping anywhere, harms no final file and no later
      resume. */
  lemma {:induction false} CleanKeeps(t: Transfer, s: System, l: Label)
    requires t.Valid() && Inv(t, s) && Enabled(t, s, l) && (l.Sweep? || l.Succeed?)
    ensures Inv(t, Apply(t, s, l))
  {
    var r := Apply(t, s, l);
    hide CanTurn, TurnOf, Transfer.DiskOf, Transfer.Apart, LiveInv;
    forall f | 0 <= f < |t.jobs|
      ensures DiskInv(t, f, t.DiskOf(r.tree, f)) && Finished(t, f, t.DiskOf(r.tree, f))
    {
      if l.Sweep? { SweptDisk(t, s.tree, l.gone, f); }
    }
    hide DiskInv, Finished;
  }

  lemma ElsewhereDisk(t: Transfer, tree: Tree, path: Path, content: Option<File>, f: nat)
    requires f < |t.jobs| && !t.Uses(path)
    ensures t.DiskOf(Write(tree, path, content), f) == t.DiskOf(tree, f)
  {
    assert path !in Owned(t.staging, Rel(t.jobs[f].meta));
  }

  /** What happens to other paths does not matter. */
  lemma {:induction false} ElsewhereKeeps(t: Transfer, s: System, path: Path, content: Option<File>)
    requires t.Valid() && Inv(t, s) && !t.Uses(path)
    ensures Inv(t, s.(tree := Write(s.tree, path, content)))
  {
    var r := s.(tree := Write(s.tree, path, content));
    forall f | 0 <= f < |t.jobs|
      ensures t.DiskOf(r.tree, f) == t.DiskOf(s.tree, f)
      ensures s.phase == Live ==> SlotInv(t, r, f)
    {
      ElsewhereDisk(t, s.tree, path, content, f);
      hide SlotInv, Transfer.DiskOf, Transfer.Valid, Transfer.Sound, Transfer.Uses;
      if s.phase == Live { SlotFrame(t, s, r, f); }
    }
    hide DiskInv, Finished, SlotInv, Transfer.DiskOf, Transfer.Valid, Transfer.Sound, Transfer.Uses;
  }

  /** The sender's tasks are exactly the bits the receiver's bitmaps leave unset. */
  lemma HandshakeTasks(t: Transfer, s: System, order: seq<H.FileId>, now: nat)
    requires t.Sound() && Shaped(t, s) && H.Permutes(order, |t.jobs|)
    ensures var r, states := Shake(t, s, order, now), States(t, s, now);
            forall task: H.Task :: task in r.todo <==>
              task.0 < |t.jobs| && task.1 < |states[task.0]| && !states[task.0][task.1]
  {
    var metas, states := t.Metas(), States(t, s, now);
    ParsedConserves(t, s, now);
    hide Transfer.Apart, Parsed;
    assert H.Shaped(metas, states);
    MetasAligned(t);
    H.Agreement(metas, states, order);
  }

  /** On the disks of a run no file needs an operation, so each is parsed as if it were alone. */
  lemma HandshakeQuiet(t: Transfer, s: System, now: nat)
    requires t.Valid() && Inv(t, s)
    ensures AllValid(t.Metas()) && Parsed(t, s, now).1 == s.tree
    ensures forall f :: 0 <= f < |t.jobs| ==>
              Parsed(t, s, now).0[f] == ParseLarge(t.mode, t.jobs[f].meta, t.DiskOf(s.tree, f), now).0
  {
    forall f | 0 <= f < |t.jobs|
      ensures ParseLarge(t.mode, t.jobs[f].meta, t.DiskOf(s.tree, f), now).1 == []
    {
      hide View, Transfer.Apart, FileInv, LiveInv, ParseLarge;
      var d := t.DiskOf(s.tree, f);
      if f in t.kept { ParseKept(t.jobs[f], d, now); } else { ParseSafe(t.jobs[f], d, now); }
    }
    hide ParseLarge, View, Transfer.Apart, Inv;
    ParseAllQuiet(t.mode, t.staging, t.Metas(), |t.jobs|, s.tree, now);
  }

  lemma {:induction false} HandshakeOpens(t: Transfer, s: System, order: seq<H.FileId>, now: nat, f: nat)
    requires t.Valid() && Inv(t, s) && Enabled(t, s, Handshake(order, now)) && f < |t.jobs|
    ensures var r := Shake(t, s, order, now);
            && r.tree == s.tree && r.queues[f] == [] && r.taken[f] == []
            && r.sessions[f] == Opened(ParseLarge(t.mode, t.jobs[f].meta, t.DiskOf(s.tree, f), now).0)
  {
    HandshakeQuiet(t, s, now);
    hide Inv, Parsed, ParseLarge, Transfer.Apart, Transfer.DiskOf, H.Flat, H.SessionsOf, H.Permutes;
  }

  /** The tasks in terms of the sessions the receiver opens. */
  lemma HandshakeShape(t: Transfer, s: System, order: seq<H.FileId>, now: nat)
    requires t.Sound() && Shaped(t, s) && H.Permutes(order, |t.jobs|)
    ensures var r := Shake(t, s, order, now);
            && r.phase == Live && r.announced == r.todo && r.arrived == map[] && !r.error && !r.cancelled
            && forall task: H.Task :: task in r.todo <==>
                 task.0 < |t.jobs| && task.1 < |r.sessions[task.0].vec.bits| && !r.sessions[task.0].vec.bits[task.1]
  {
    HandshakeTasks(t, s, order, now);
    hide Parsed, Transfer.Apart, H.Flat, H.SessionsOf;
    assert forall f :: 0 <= f < |t.jobs| ==>
             Shake(t, s, order, now).sessions[f].vec.bits == States(t, s, now)[f];
  }

  /** A session freshly opened from a disk of a run is in order. */
  lemma OpenedSlot(t: Transfer, r: System, f: nat, now: nat)
    requires t.Valid() && Shaped(t, r) && f < |t.jobs| && DiskInv(t, f, t.DiskOf(r.tree, f))
    requires r.queues[f] == [] && r.taken[f] == []
    requires r.sessions[f] == Opened(ParseLarge(t.mode, t.jobs[f].meta, t.DiskOf(r.tree, f), now).0)
    requires forall i: nat :: i < |r.sessions[f].vec.bits| && !r.sessions[f].vec.bits[i] ==> (f, i) in r.todo
    ensures SlotInv(t, r, f)
  {
    hide Transfer.DiskOf, Transfer.Apart;
    var d := t.DiskOf(r.tree, f);
    if f in t.kept { ParseKept(t.jobs[f], d, now); } else { ParseSafe(t.jobs[f], d, now); }
    hide FileInv, Exact, SkipRule, SessionInv, ParseLarge, CollisionFree;
  }

  lemma RoundStarts(t: Transfer, r: System)
    requires t.Valid() && Shaped(t, r) && r.phase == Live && r.announced == r.todo && r.arrived == map[]
    requires forall f :: 0 <= f < |t.jobs| ==> DiskInv(t, f, t.DiskOf(r.tree, f)) && SlotInv(t, r, f)
    requires forall task: H.Task :: task in r.todo ==>
               task.0 < |t.jobs| && task.1 < |r.sessions[task.0].vec.bits| && !r.sessions[task.0].vec.bits[task.1]
    ensures Inv(t, r)
  {
    forall f | 0 <= f < |t.jobs|
      ensures |r.sessions[f].vec.bits| == t.jobs[f].meta.NumChunks()
    {
      SlotLength(t, r, f);
    }
    hide SlotInv, DiskInv, Transfer.DiskOf, Transfer.Apart;
  }

  lemma {:induction false} HandshakeKeeps(t: Transfer, s: System, order: seq<H.FileId>, now: nat)
    requires t.Valid() && Inv(t, s) && Enabled(t, s, Handshake(order, now))
    ensures Inv(t, Shake(t, s, order, now)) && Shake(t, s, order, now).tree == s.tree
  {
    var r := Shake(t, s, order, now);
    HandshakeQuiet(t, s, now);
    HandshakeShape(t, s, order, now);
    hide Transfer.DiskOf, Transfer.Apart, ParseLarge, DiskInv, SlotInv, LiveInv, H.Permutes,
         H.Flat, H.SessionsOf, Parsed;
    assert r.tree == s.tree;
    hide Shake;
    forall f | 0 <= f < |t.jobs|
      ensures DiskInv(t, f, t.DiskOf(r.tree, f)) && SlotInv(t, r, f)
    {
      HandshakeOpens(t, s, order, now, f);
      OpenedSlot(t, r, f, now);
    }
    RoundStarts(t, r);
  }

  /** Every label keeps the invariant. */
  lemma {:induction false} StepKeeps(t: Transfer, s: System, l: Label)
    requires t.Valid() && Inv(t, s) && Enabled(t, s, l)
    ensures Inv(t, Apply(t, s, l))
  {
    match l
    case Handshake(order, now) => HandshakeKeeps(t, s, order, now);
    case Arrive(task, bytes) => ArriveKeeps(t, s, task, bytes);
    case Lose(task) => FlagKeeps(t, s, l);
    case Abandon(task) => FlagKeeps(t, s, l);
    case Disconnect => FlagKeeps(t, s, l);
    case CancelAll => FlagKeeps(t, s, l);
    case Turn(f, event) => TurnKeeps(t, s, f, event);
    case Fault(f, event, at) =>
      InsideTurn(t, s, f, event, at);
      FaultKeeps(t, s, f, TurnOf(t, s, f, event).1[..at]);
    case Finish => FinishKeeps(t, s);
    case Sweep(gone) => CleanKeeps(t, s, l);
    case Succeed => CleanKeeps(t, s, l);
    case Elsewhere(path, content) => ElsewhereKeeps(t, s, path, content);
    case Crash(inside) => CrashKeeps(t, s, inside);
  }

  lemma {:induction false} RunKeeps(t: Transfer, s: System, labels: seq<Label>, last: System)
    requires t.Valid() && Inv(t, s) && Runs(t, s, labels, last)
    ensures Inv(t, last)
    decreases |labels|
  {
    if labels != [] {
      hide Apply, Enabled, Inv;
      StepKeeps(t, s, labels[0]);
      RunKeeps(t, Apply(t, s, labels[0]), labels[1..], last);
    }
  }

  ghost predicate Reachable(t: Transfer, s: System): (r: bool)
    requires t.Valid()
    ensures r ==> Shaped(t, s)
  {
    exists first: System, labels: seq<Label> :: Shaped(t, first) && Init(t, first) && Runs(t, first, labels, s)
  }

  lemma InitInv(t: Transfer, s: System)
    requires t.Valid() && Init(t, s)
    ensures Inv(t, s)
  {
  }

  lemma ReachableInv(t: Transfer, s: System)
    requires t.Valid() && Reachable(t, s)
    ensures Inv(t, s)
  {
    hide Init, Runs, Inv;
    var first: System, labels: seq<Label> :| Shaped(t, first) && Init(t, first) && Runs(t, first, labels, s);
    InitInv(t, first);
    RunKeeps(t, first, labels, s);
  }

  /** What is at the final path of file f. */
  function FinalOf(t: Transfer, s: System, f: nat): Option<File>
    requires f < |t.jobs|
  {
    FileAt(s.tree, t.staging.FinalPath(Rel(t.jobs[f].meta)))
  }

  /**
   End to end: over every run of handshakes, deliveries in any order and with any payload, lost streams, drops,
   cancels, faults and crashes, and of anything on other paths, the receiver reports success only when what is at the
   final path of every file not skipped at the first handshake are the source bytes, and a skipped file is as it was.
   Then every announced chunk was handed to `write_chunk`, every packet a writer processed matched its hash, and every
   writer that ran committed. It stays so while the staging folder is removed.
   */
  lemma {:induction false} EndToEnd(t: Transfer, s: System)
    requires t.Valid() && Reachable(t, s) && Enabled(t, s, Succeed)
    ensures forall f :: 0 <= f < |t.jobs| ==>
              && FinalOf(t, s, f).Some?
              && (if f in t.kept then FinalOf(t, s, f).value == t.kept[f]
                  else FinalOf(t, s, f).value.data == t.jobs[f].source)
              && (s.sessions[f].status == Waiting || s.sessions[f].status == Committed)
              && forall k :: 0 <= k < |s.taken[f]| ==> s.taken[f][k].hash == t.hash(s.taken[f][k].bytes)
    ensures Handed(s) == s.announced
  {
    ReachableInv(t, s);
    assert DoneInv(t, s) && Shaped(t, s);
    assert forall f :: 0 <= f < |t.jobs| ==> DiskInv(t, f, t.DiskOf(s.tree, f));
    hide Reachable, Inv, Enabled, DiskInv, Finished, Transfer.Apart, Transfer.DiskOf, FinalOf, CollisionFree, SkipRule;
    forall f | 0 <= f < |t.jobs|
      ensures FinalOf(t, s, f).Some?
      ensures if f in t.kept then FinalOf(t, s, f).value == t.kept[f]
              else FinalOf(t, s, f).value.data == t.jobs[f].source
    {
      FinalIs(t, s, f);
    }
  }

  lemma FinalIs(t: Transfer, s: System, f: nat)
    requires t.Valid() && f < |t.jobs|
    requires DiskInv(t, f, t.DiskOf(s.tree, f)) && Finished(t, f, t.DiskOf(s.tree, f))
    ensures FinalOf(t, s, f).Some?
    ensures if f in t.kept then FinalOf(t, s, f).value == t.kept[f] else FinalOf(t, s, f).value.data == t.jobs[f].source
  {
    hide FileInv, Transfer.Apart, CollisionFree;
  }

  /** A disk state no resume is misled by: what `.state` claims is in `.part`, and it never claims everything. */
  ghost predicate Resumable(j: Job, d: Disk)
    requires j.Valid()
  {
    CrashSafe(j, d) && NeverComplete(j, d)
  }

  lemma DiskResumable(t: Transfer, f: nat, d: Disk)
    requires t.Valid() && f < |t.jobs| && DiskInv(t, f, d) && (f in t.kept ==> t.mode != Sync)
    ensures Resumable(t.jobs[f], d)
  {
    hide Transfer.Apart;
  }

  /**
   Crash safety of resume: in every disk state of every run, also between the operations of a turn and inside
   torn writes, a `.state` vouches only for bytes of the source in a `.part` of full length, and it never decodes
   to a complete bitmap. (Of a file skipped in Sync mode nothing in the staging folder is looked at.)
   */
  lemma ResumeSafety(t: Transfer, s: System, f: nat)
    requires t.Valid() && Reachable(t, s) && f < |t.jobs| && (f in t.kept ==> t.mode != Sync)
    ensures Resumable(t.jobs[f], t.DiskOf(s.tree, f))
    ensures forall event: Event, at: nat :: CanTurn(t, s, f, event) && at <= |TurnOf(t, s, f, event).1| ==>
              Resumable(t.jobs[f], End(t.DiskOf(s.tree, f), TurnOf(t, s, f, event).1[..at]))
  {
    ReachableInv(t, s);
    hide Reachable, TurnOf, CanTurn, Resumable, LiveInv, End, DiskInv, Transfer.DiskOf, Transfer.Apart;
    DiskResumable(t, f, t.DiskOf(s.tree, f));
    forall event: Event, at: nat | CanTurn(t, s, f, event) && at <= |TurnOf(t, s, f, event).1|
      ensures Resumable(t.jobs[f], End(t.DiskOf(s.tree, f), TurnOf(t, s, f, event).1[..at]))
    {
      InsideTurn(t, s, f, event, at);
      DiskResumable(t, f, End(t.DiskOf(s.tree, f), TurnOf(t, s, f, event).1[..at]));
    }
  }

  /** So no handshake of any run creates or truncates a final file: the `state.all()` branches never fire. */
  lemma HandshakeTouchesNothing(t: Transfer, s: System, order: seq<H.FileId>, now: nat)
    requires t.Valid() && Reachable(t, s) && Enabled(t, s, Handshake(order, now))
    ensures Shake(t, s, order, now).tree == s.tree
  {
    ReachableInv(t, s);
    HandshakeKeeps(t, s, order, now);
  }

  ghost predicate LossBounded(j: Job, x: Session, d: Disk)
    requires j.Valid()
  {
    && |x.vec.bits| == j.meta.NumChunks()
    && (x.status == Running ==> |Unsaved(j, x.vec.bits, d)| <= x.sinceSave < 16)
    && (x.status == Drained || x.status == Cancelled ==> DiskBits(j, d) == x.vec.bits)
  }

  /**
   Bounded loss: at every head of a writer loop fewer than 16 chunks are known in memory only, at most as many as
   the save counter says; a writer that ended by close or cancel left nothing unsaved.
   */
  lemma {:induction false} BoundedLoss(t: Transfer, s: System, f: nat)
    requires t.Valid() && Reachable(t, s) && f < |t.jobs|
    requires s.phase == Live && t.jobs[f].meta.Staged()
    ensures LossBounded(t.jobs[f], s.sessions[f], t.DiskOf(s.tree, f))
  {
    ReachableInv(t, s);
    assert SlotInv(t, s, f);
    hide Reachable, DiskInv, Covered, Promise, Honest, Matched, LossBounded, Transfer.DiskOf, Transfer.Apart;
    PromiseBounds(t, f, s.sessions[f], t.DiskOf(s.tree, f), s.error || s.cancelled, s.cancelled);
  }

  lemma PromiseBounds(t: Transfer, f: nat, x: Session, d: Disk, flagged: bool, cancelled: bool)
    requires t.Valid() && f < |t.jobs| && t.jobs[f].meta.Staged() && |x.vec.bits| == t.jobs[f].meta.NumChunks()
    requires Promise(t, f, x, d, flagged, cancelled)
    ensures LossBounded(t.jobs[f], x, d)
    ensures x.status == Drained || x.status == Cancelled ==> flagged || cancelled
  {
    hide Transfer.Apart, Exact, DiskBits, Backed, CollisionFree;
  }

  /**
   Resume is exact: a staged file whose writer ended by close or cancel is asked for in the next round by exactly the
   chunks its writer had not stored.
   */
  lemma {:induction false} ResumeExact(t: Transfer, s: System, order: seq<H.FileId>, now: nat, f: nat)
    requires t.Valid() && Reachable(t, s) && Enabled(t, s, Finish) && H.Permutes(order, |t.jobs|)
    requires f < |t.jobs| && t.jobs[f].meta.Staged()
    requires s.sessions[f].status == Drained || s.sessions[f].status == Cancelled
    ensures var s1 := Apply(t, s, Finish);
            && Enabled(t, s1, Handshake(order, now))
            && forall i: nat :: (f, i) in Shake(t, s1, order, now).announced <==>
                 i < |s.sessions[f].vec.bits| && !s.sessions[f].vec.bits[i]
  {
    ReachableInv(t, s);
    RoundGivenUp(t, s, f);
    StepKeeps(t, s, Finish);
    hide Reachable, Inv, Apply, Transfer.Apart;
    Reopened(t, Apply(t, s, Finish), order, now, f, s.sessions[f]);
  }

  /** A handshake asks for what the session that left this disk had not stored. */
  lemma {:induction false} Reopened(t: Transfer, s: System, order: seq<H.FileId>, now: nat, f: nat, x: Session)
    requires t.Valid() && Inv(t, s) && Enabled(t, s, Handshake(order, now))
    requires f < |t.jobs| && t.jobs[f].meta.Staged() && Retained(t.jobs[f], x, t.DiskOf(s.tree, f))
    ensures forall i: nat :: (f, i) in Shake(t, s, order, now).announced <==> i < |x.vec.bits| && !x.vec.bits[i]
  {
    HandshakeOpens(t, s, order, now, f);
    ParseRetained(t.jobs[f], x, t.DiskOf(s.tree, f), now);
    HandshakeShape(t, s, order, now);
    hide Inv, Retained, Transfer.Apart, Transfer.DiskOf, Shake, ParseLarge, CollisionFree, H.Permutes;
  }

  /** A writer that ended without a commit was flagged, so its round is no success, and lost nothing. */
  lemma {:induction false} RoundGivenUp(t: Transfer, s: System, f: nat)
    requires t.Valid() && Inv(t, s) && Enabled(t, s, Finish) && f < |t.jobs|
    requires s.sessions[f].status == Drained || s.sessions[f].status == Cancelled
    ensures var s1 := Apply(t, s, Finish);
            s1.phase == Idle && Retained(t.jobs[f], s.sessions[f], t.DiskOf(s1.tree, f))
  {
    assert SlotInv(t, s, f);
    assert Promise(t, f, s.sessions[f], t.DiskOf(s.tree, f), s.error || s.cancelled, s.cancelled);
    hide Inv, SlotInv, Retained, Transfer.DiskOf, Transfer.Apart, CollisionFree;
  }

  /** An I/O error leaves its file as far as the turn had got, and every other as it was. */
  lemma FaultMoves(t: Transfer, s: System, f: nat, event: Event, at: nat)
    requires t.Valid() && Shaped(t, s) && f < |t.jobs| && at <= |TurnOf(t, s, f, event).1|
    requires Enabled(t, s, Fault(f, event, at))
    ensures var r := Apply(t, s, Fault(f, event, at));
            && r.sessions[f].status == Faulted
            && t.DiskOf(r.tree, f) == End(t.DiskOf(s.tree, f), TurnOf(t, s, f, event).1[..at])
            && forall g :: 0 <= g < |t.jobs| && g != f ==>
                 t.DiskOf(r.tree, g) == t.DiskOf(s.tree, g) && r.sessions[g] == s.sessions[g]
  {
    hide TurnOf, Transfer.Act, Transfer.DiskOf, Transfer.Apart, CanTurn, End;
    ActMoves(t, s.tree, f, TurnOf(t, s, f, event).1[..at]);
  }

  /** Everything in the staging folder. */
  function Staged(t: Transfer, tree: Tree): set<Path> {
    set p | p in tree && InStaging(t.staging, p)
  }

  /**
   The clean-up run to its end: nothing is left in the staging folder, no `.part` and no `.state` of any file,
   everything else is as it was, and the round is over.
   */
  lemma {:induction false} CleanedUp(t: Transfer, s: System)
    requires t.Valid() && Shaped(t, s) && s.phase == Cleaning
    ensures var labels := [Sweep(Staged(t, s.tree)), Succeed];
            var last := s.(phase := Idle, tree := s.tree - Staged(t, s.tree));
            && Runs(t, s, labels, last)
            && (forall p :: FileAt(last.tree, p) == if InStaging(t.staging, p) then None else FileAt(s.tree, p))
            && forall f :: 0 <= f < |t.jobs| ==>
                 t.DiskOf(last.tree, f) == Disk(None, None, t.DiskOf(s.tree, f).final)
  {
    var gone := Staged(t, s.tree);
    var swept := s.(tree := s.tree - gone);
    var last := swept.(phase := Idle);
    assert Enabled(t, s, Sweep(gone)) && Apply(t, s, Sweep(gone)) == swept;
    assert Enabled(t, swept, Succeed) && Apply(t, swept, Succeed) == last;
    assert Runs(t, last, [], last);
    assert [Succeed][1..] == [] && [Sweep(gone), Succeed][1..] == [Succeed];
    assert Runs(t, swept, [Succeed], last);
    hide Apply, Enabled;
    forall f | 0 <= f < |t.jobs|
      ensures t.DiskOf(last.tree, f) == Disk(None, None, t.DiskOf(s.tree, f).final)
    {
      ClearedView(t, s.tree, f);
    }
  }

  lemma ClearedView(t: Transfer, tree: Tree, f: nat)
    requires t.Valid() && f < |t.jobs|
    ensures t.DiskOf(tree - Staged(t, tree), f) == Disk(None, None, t.DiskOf(tree, f).final)
  {
    var rel := Rel(t.jobs[f].meta);
    assert t.Rels()[f] == rel;
    assert Placed(t.staging, rel) && !InStaging(t.staging, t.staging.FinalPath(rel));
    hide Transfer.Valid, Transfer.Sound, Transfer.Apart, Separate;
    StagingPlace(t.staging, rel);
    hide InStaging, Placed, TransferStaging.PartPath, TransferStaging.StatePath, TransferStaging.FinalPath;
  }

  /** A writer has failed; a hash mismatch shows in the token alone. */
  ghost predicate Failed(s: System, f: nat)
    requires f < |s.sessions|
  {
    s.sessions[f].status == Faulted || (s.sessions[f].status == Rejected && s.cancelled)
  }

  lemma {:induction false} FailedOn(t: Transfer, s: System, l: Label, f: nat)
    requires t.Valid() && Shaped(t, s) && Enabled(t, s, l) && !l.Handshake? && f < |t.jobs|
    requires s.phase == Idle || (s.phase == Live && Failed(s, f))
    ensures var r := Apply(t, s, l); r.phase == Idle || (r.phase == Live && Failed(r, f))
  {
    hide TurnOf, Transfer.Act, Transfer.DiskOf, Transfer.Apart, CollisionFree, CrashTree, ClockApart;
  }

  lemma {:induction false} NoSuccess(t: Transfer, s: System, labels: seq<Label>, last: System, f: nat)
    requires t.Valid() && Shaped(t, s) && f < |t.jobs| && Runs(t, s, labels, last)
    requires s.phase == Idle || (s.phase == Live && Failed(s, f))
    requires forall k :: 0 <= k < |labels| ==> !labels[k].Handshake?
    ensures last.phase != Cleaning
    decreases |labels|
  {
    if labels != [] {
      FailedOn(t, s, labels[0], f);
      hide Apply, Enabled, Failed;
      NoSuccess(t, Apply(t, s, labels[0]), labels[1..], last, f);
    }
  }

  /**
   Failures stick: once a writer has failed, no continuation of the round ends in success. The error of a hash mismatch
   is dropped, as it comes under the token it has cancelled; it is the token, which nothing clears before the next
   handshake, that fails the round.
   */
  lemma {:induction false} MismatchSticks(t: Transfer, s: System, f: nat, labels: seq<Label>, last: System)
    requires t.Valid() && Reachable(t, s) && f < |t.jobs| && s.phase == Live && FailedWriter(s.sessions[f])
    requires Runs(t, s, labels, last) && forall k :: 0 <= k < |labels| ==> !labels[k].Handshake?
    ensures last.phase != Cleaning
    ensures s.sessions[f].status == Rejected ==> s.cancelled
  {
    ReachableInv(t, s);
    assert SlotInv(t, s, f);
    NoSuccess(t, s, labels, last, f);
  }

  /** The round is over, or flagged: by an error it keeps, or by the token. */
  ghost predicate Flagged(s: System) {
    s.phase == Idle || (s.phase == Live && (s.error || s.cancelled))
  }

  lemma FlaggedOn(t: Transfer, s: System, l: Label)
    requires t.Valid() && Shaped(t, s) && Enabled(t, s, l) && !l.Handshake? && Flagged(s)
    ensures Flagged(Apply(t, s, l))
  {
    hide TurnOf, Transfer.Act, Transfer.DiskOf, Transfer.Apart, CollisionFree, CrashTree, ClockApart;
  }

  lemma {:induction false} FlagSticks(t: Transfer, s: System, labels: seq<Label>, last: System)
    requires t.Valid() && Shaped(t, s) && Runs(t, s, labels, last) && Flagged(s)
    requires forall k :: 0 <= k < |labels| ==> !labels[k].Handshake?
    ensures last.phase != Cleaning
    decreases |labels|
  {
    if labels != [] {
      FlaggedOn(t, s, labels[0]);
      hide Apply, Enabled, Flagged;
      FlagSticks(t, Apply(t, s, labels[0]), labels[1..], last);
    }
  }

  /** What disturbs a round: a lost stream, a drop, a cancel, an arm left under it, a chunk nobody asked for. */
  ghost predicate Disturbs(t: Transfer, l: Label)
    requires t.Valid()
  {
    match l
    case Lose(_) => true
    case Abandon(_) => true
    case Disconnect => true
    case CancelAll => true
    case Arrive(task, _) => task.0 >= |t.jobs| || task.1 >= t.jobs[task.0].meta.NumChunks()
    case _ => false
  }

  /** A round that has been disturbed never ends in success: only a new handshake can. */
  lemma DisturbedFails(t: Transfer, s: System, l: Label, labels: seq<Label>, last: System)
    requires t.Valid() && Shaped(t, s) && Enabled(t, s, l) && Disturbs(t, l)
    requires Runs(t, Apply(t, s, l), labels, last) && forall k :: 0 <= k < |labels| ==> !labels[k].Handshake?
    ensures last.phase != Cleaning
  {
    assert Flagged(Apply(t, s, l)) by { hide Runs, Transfer.Apart, CollisionFree; }
    hide Apply, Enabled, Flagged, Disturbs;
    FlagSticks(t, Apply(t, s, l), labels, last);
  }

  /** An undisturbed step: an awaited chunk arrives intact, a writer turns, or the round ends. */
  ghost predicate Gentle(t: Transfer, l: Label)
    requires t.Valid()
  {
    match l
    case Arrive(task, bytes) =>
      task.0 < |t.jobs| && task.1 < t.jobs[task.0].meta.NumChunks() && bytes == t.jobs[task.0].Chunk(task.1)
    case Turn(_, _) => true
    case Finish => true
    case _ => false
  }

  ghost predicate AllGentle(t: Transfer, labels: seq<Label>)
    requires t.Valid()
  {
    forall k :: 0 <= k < |labels| ==> Gentle(t, labels[k])
  }

  ghost predicate Intact(j: Job, packet: Packet)
    requires j.Valid()
  {
    packet.index < j.meta.NumChunks() && packet.bytes == j.Chunk(packet.index)
  }

  predicate SmoothStatus(status: Status) {
    status == Waiting || status == Running || status == Committed
  }

  /** A live round with nothing flagged and only intact chunks on their way. */
  ghost predicate Smooth(t: Transfer, s: System)
    requires t.Valid()
  {
    && Inv(t, s) && s.phase == Live && !s.error && !s.cancelled
    && (forall f :: 0 <= f < |t.jobs| ==> SmoothSlot(t, s, f))
  }

  ghost predicate SmoothSlot(t: Transfer, s: System, f: nat)
    requires t.Valid() && Shaped(t, s) && f < |t.jobs|
  {
    SmoothStatus(s.sessions[f].status) && forall k :: 0 <= k < |s.queues[f]| ==> Intact(t.jobs[f], s.queues[f][k])
  }

  ghost function Pending(queues: seq<seq<Packet>>): nat {
    if queues == [] then 0 else Pending(queues[..|queues| - 1]) + |queues[|queues| - 1]|
  }

  lemma {:induction false} PendingUpdate(queues: seq<seq<Packet>>, f: nat, queue: seq<Packet>)
    requires f < |queues|
    ensures Pending(queues[f := queue]) == Pending(queues) - |queues[f]| + |queue|
  {
    var last := |queues| - 1;
    if f == last {
      assert queues[f := queue][..last] == queues[..last];
    } else {
      assert queues[f := queue][..last] == queues[..last][f := queue];
      PendingUpdate(queues[..last], f, queue);
    }
  }

  /** How many undisturbed steps a round has left at most. */
  ghost function Left(s: System): nat {
    if s.phase == Live then 1 + 2 * |s.todo| + Pending(s.queues) else 0
  }

  lemma ArriveQueue(t: Transfer, s: System, task: H.Task, bytes: Bytes)
    requires t.Valid() && Shaped(t, s) && task.0 < |t.jobs| && task.1 < t.jobs[task.0].meta.NumChunks()
    ensures var r, f := Deliver(t, s, task, bytes), task.0;
            && r.queues == s.queues[f := r.queues[f]]
            && (r.queues[f] == s.queues[f] || exists hash :: r.queues[f] == s.queues[f] + [Packet(task.1, hash, bytes)])
            && (r.sessions[f].status == s.sessions[f].status || r.sessions[f].status == Running)
  {
    hide Job.Chunk, Transfer.Apart, CollisionFree;
  }

  lemma {:induction false} GentleArrive(t: Transfer, s: System, task: H.Task, bytes: Bytes)
    requires t.Valid() && Smooth(t, s) && Enabled(t, s, Arrive(task, bytes)) && Gentle(t, Arrive(task, bytes))
    ensures Smooth(t, Deliver(t, s, task, bytes)) && Left(Deliver(t, s, task, bytes)) < Left(s)
  {
    ArriveKeeps(t, s, task, bytes);
    ArriveMoves(t, s, task, bytes);
    ArriveQueue(t, s, task, bytes);
    hide Inv, Transfer.Apart, CollisionFree, Pending, Deliver, Transfer.DiskOf, Job.Chunk;
    var r, f := Deliver(t, s, task, bytes), task.0;
    PendingUpdate(s.queues, f, r.queues[f]);
    forall g | 0 <= g < |t.jobs|
      ensures SmoothSlot(t, r, g)
    {
      assert SmoothSlot(t, s, g);
      if g != f {
        assert Same(t, s, r, g);
      } else {
        hide Smooth, SmoothStatus;
        ArriveSmooth(t, s, r, f, task.1, bytes);
      }
    }
  }

  lemma ArriveSmooth(t: Transfer, s: System, r: System, f: nat, i: nat, bytes: Bytes)
    requires t.Valid() && Shaped(t, s) && Shaped(t, r) && f < |t.jobs| && SmoothSlot(t, s, f)
    requires i < t.jobs[f].meta.NumChunks() && bytes == t.jobs[f].Chunk(i)
    requires r.queues[f] == s.queues[f] || exists hash :: r.queues[f] == s.queues[f] + [Packet(i, hash, bytes)]
    requires r.sessions[f].status == s.sessions[f].status || r.sessions[f].status == Running
    ensures SmoothSlot(t, r, f)
  {
    hide Transfer.Apart, CollisionFree, Job.Chunk;
  }

  /** The turn of an unflagged round is a packet's, and an intact one is stored. */
  lemma GentleTurn(t: Transfer, s: System, f: nat, event: Event)
    requires t.Valid() && Smooth(t, s) && CanTurn(t, s, f, event)
    ensures event.Receive? && SmoothStatus(TurnOf(t, s, f, event).0.status)
  {
    assert SmoothSlot(t, s, f) && SlotInv(t, s, f);
    TurnAllowed(t, s, f, event);
    hide Inv, FileInv, ClockApart, Transfer.DiskOf, Transfer.Apart, CollisionFree, Honest, Matched, TurnInv;
    if event == Close {
      NothingLeft(s, f);
      assert false;
    }
    assert ClockApart(t.jobs[f], t.DiskOf(s.tree, f), event.now);
    hide Covered, SessionInv;
    PacketSafe(t.jobs[f], t.hash, s.sessions[f], t.DiskOf(s.tree, f), event.packet, event.now, event.touched);
    hide Step;
  }

  lemma GentleTurnTo(t: Transfer, s: System, f: nat, event: Event)
    requires t.Valid() && Smooth(t, s) && CanTurn(t, s, f, event)
    ensures Smooth(t, TurnTo(t, s, f, event)) && Left(TurnTo(t, s, f, event)) < Left(s)
  {
    TurnKeeps(t, s, f, event);
    TurnMoves(t, s, f, event);
    GentleTurn(t, s, f, event);
    var r := TurnTo(t, s, f, event);
    assert |r.queues[f]| < |s.queues[f]|;
    PendingUpdate(s.queues, f, r.queues[f]);
    assert r.queues == s.queues[f := r.queues[f]];
    hide Inv, Transfer.Apart, Transfer.DiskOf, TurnOf, CollisionFree, Pending, TurnTo, CanTurn, Intact;
    forall g | 0 <= g < |t.jobs|
      ensures SmoothSlot(t, r, g)
    {
      assert SmoothSlot(t, s, g);
      assert g != f ==> Same(t, s, r, g);
    }
  }

  lemma {:induction false} GentleStep(t: Transfer, s: System, l: Label)
    requires t.Valid() && Smooth(t, s) && Enabled(t, s, l) && Gentle(t, l)
    ensures var r := Apply(t, s, l); Left(r) < Left(s) && (Smooth(t, r) || r.phase == Cleaning)
  {
    match l
    case Arrive(task, bytes) => GentleArrive(t, s, task, bytes);
    case Turn(f, event) => GentleTurnTo(t, s, f, event);
    case Finish =>
      hide Inv, Transfer.Apart, CollisionFree;
      forall f | 0 <= f < |s.sessions|
        ensures !FailedWriter(s.sessions[f])
      {
        assert SmoothSlot(t, s, f);
      }
  }

  lemma AwaitedArrives(t: Transfer, s: System, task: H.Task)
    requires t.Valid() && Smooth(t, s) && task in s.todo
    ensures task.0 < |t.jobs| && task.1 < t.jobs[task.0].meta.NumChunks()
    ensures Enabled(t, s, Arrive(task, t.jobs[task.0].Chunk(task.1)))
  {
    hide SlotInv, DiskInv, Transfer.Apart, CollisionFree;
  }

  lemma RunningTurns(t: Transfer, s: System, f: nat)
    requires t.Valid() && Smooth(t, s) && s.todo == {} && f < |t.jobs| && s.sessions[f].status == Running
    ensures s.queues[f] != []
    ensures CanTurn(t, s, f, Receive(s.queues[f][0], t.jobs[f].meta.modified + 1, true))
  {
    assert SlotInv(t, s, f);
    hide DiskInv, Transfer.Apart, CollisionFree, Transfer.DiskOf, Matched, Honest;
    if s.queues[f] == [] { NothingLeft(s, f); }
    hide Covered;
  }

  /** As long as the round is live, some undisturbed step is possible. */
  lemma {:induction false} NotStuck(t: Transfer, s: System) returns (l: Label)
    requires t.Valid() && Smooth(t, s)
    ensures Enabled(t, s, l) && Gentle(t, l)
  {
    assert Shaped(t, s);
    hide Inv, Transfer.Apart, CollisionFree, CanTurn, SmoothSlot;
    if s.todo != {} {
      var task :| task in s.todo;
      AwaitedArrives(t, s, task);
      l := Arrive(task, t.jobs[task.0].Chunk(task.1));
    } else if f: nat :| f < |t.jobs| && s.sessions[f].status == Running {
      RunningTurns(t, s, f);
      l := Turn(f, Receive(s.queues[f][0], t.jobs[f].meta.modified + 1, true));
    } else {
      l := Finish;
    }
  }

  /**
   Every undisturbed run of a round is bounded, and it ends in success unless it is cut short: whatever order chunks
   arrive and writers turn in, a state from which no undisturbed step is possible is one of success.
   */
  lemma {:induction false} SmoothSucceeds(t: Transfer, s: System, labels: seq<Label>, last: System)
    requires t.Valid() && Shaped(t, s) && Smooth(t, s) && Runs(t, s, labels, last) && AllGentle(t, labels)
    ensures |labels| + Left(last) <= Left(s) && (last.phase == Cleaning || Smooth(t, last))
    ensures (forall l :: Gentle(t, l) ==> !Enabled(t, last, l)) ==> last.phase == Cleaning
    decreases |labels|
  {
    if labels == [] {
      var l := NotStuck(t, s);
      hide Smooth, Enabled, Gentle, Left;
    } else {
      GentleStep(t, s, labels[0]);
      hide Smooth, Enabled, Apply, Gentle, Left;
      var r := Apply(t, s, labels[0]);
      assert AllGentle(t, labels[1..]);
      if Smooth(t, r) {
        SmoothSucceeds(t, r, labels[1..], last);
      } else {
        AfterCleaning(t, r, labels[1..], last);
      }
    }
  }

  lemma AfterCleaning(t: Transfer, s: System, labels: seq<Label>, last: System)
    requires t.Valid() && Shaped(t, s) && s.phase == Cleaning && Runs(t, s, labels, last) && AllGentle(t, labels)
    ensures labels == [] && last == s
  {
    forall l: Label | Gentle(t, l)
      ensures !Enabled(t, s, l)
    {
    }
  }

  /**
   Resume completes: from the tree left by any run, however it was interrupted, the next round, undisturbed, ends in
   success, in whatever order its chunks arrive and its writers turn.
   */
  lemma {:induction false} ResumeCompletes(t: Transfer, s: System, order: seq<H.FileId>, now: nat, labels: seq<Label>,
                                           last: System)
    requires t.Valid() && Reachable(t, s) && Enabled(t, s, Handshake(order, now))
    requires Runs(t, Shake(t, s, order, now), labels, last) && AllGentle(t, labels)
    ensures |labels| + Left(last) <= Left(Shake(t, s, order, now))
    ensures (forall l :: Gentle(t, l) ==> !Enabled(t, last, l)) ==> last.phase == Cleaning
  {
    ReachableInv(t, s);
    HandshakeSmooth(t, s, order, now);
    hide *;
    SmoothSucceeds(t, Shake(t, s, order, now), labels, last);
  }

  lemma {:induction false} HandshakeSmooth(t: Transfer, s: System, order: seq<H.FileId>, now: nat)
    requires t.Valid() && Inv(t, s) && Enabled(t, s, Handshake(order, now))
    ensures Smooth(t, Shake(t, s, order, now))
  {
    HandshakeKeeps(t, s, order, now);
    HandshakeShape(t, s, order, now);
    hide Shake, ParseLarge, Inv, Transfer.Apart, Transfer.DiskOf, CollisionFree, Intact, H.Permutes;
    forall f | 0 <= f < |t.jobs|
      ensures SmoothSlot(t, Shake(t, s, order, now), f)
    {
      HandshakeOpens(t, s, order, now, f);
    }
  }

  ghost predicate Reaches(t: Transfer, s: System, phase: Phase)
    requires t.Valid() && Shaped(t, s)
  {
    exists labels: seq<Label>, last: System :: Runs(t, s, labels, last) && last.phase == phase
  }

  lemma ReachesBefore(t: Transfer, s: System, l: Label, phase: Phase)
    requires t.Valid() && Shaped(t, s) && Enabled(t, s, l) && Reaches(t, Apply(t, s, l), phase)
    ensures Reaches(t, s, phase)
  {
    hide Apply, Enabled;
    var labels: seq<Label>, last: System :| Runs(t, Apply(t, s, l), labels, last) && last.phase == phase;
    assert ([l] + labels)[1..] == labels;
    assert Runs(t, s, [l] + labels, last);
  }

  /** So success is within reach of every live round that nothing has flagged. */
  lemma {:induction false} SuccessInReach(t: Transfer, s: System)
    requires t.Valid() && Shaped(t, s) && Smooth(t, s)
    ensures Reaches(t, s, Cleaning)
    decreases Left(s)
  {
    var l := NotStuck(t, s);
    GentleStep(t, s, l);
    var r := Apply(t, s, l);
    hide Smooth, Enabled, Apply, Gentle, Left, Reaches;
    if Smooth(t, r) {
      SuccessInReach(t, r);
    } else {
      ReachesHere(t, r);
    }
    ReachesBefore(t, s, l, Cleaning);
  }

  lemma ReachesHere(t: Transfer, s: System)
    requires t.Valid() && Shaped(t, s)
    ensures Reaches(t, s, s.phase)
  {
    assert Runs(t, s, [], s);
  }

  /**
   Two files of one path: when the writer of the second commits, the first file's final path holds the second's bytes,
   and nothing about the first session tells. Separate paths are needed.
   */
  lemma SameNameLoses(t: Transfer, s: System, f: nat, g: nat, event: Event)
    requires Shaped(t, s) && CanTurn(t, s, g, event) && f < |t.jobs| && f != g
    requires Rel(t.jobs[f].meta) == Rel(t.jobs[g].meta)
    requires Placed(t.staging, Rel(t.jobs[g].meta)) && !NamesStaging(t.staging, Rel(t.jobs[g].meta))
    requires t.jobs[g].Valid() && CollisionFree(t.jobs[g], t.hash)
    requires var d := t.DiskOf(s.tree, g);
             && FileInv(t.jobs[g], d) && SessionInv(t.jobs[g], s.sessions[g], d)
             && ValidEvent(t.jobs[g], t.hash, d, event)
    requires TurnOf(t, s, g, event).0.status == Committed
    ensures var r := TurnTo(t, s, g, event);
            && r.sessions[f] == s.sessions[f] && r.sessions[g].status == Committed
            && FinalOf(t, r, f).Some? && FinalOf(t, r, f).value.data == t.jobs[g].source
  {
    var rel, trace := Rel(t.jobs[g].meta), TurnOf(t, s, g, event).1;
    StepSafe(t.jobs[g], t.hash, s.sessions[g], t.DiskOf(s.tree, g), event);
    StagingPlace(t.staging, rel);
    PutOwn(s.tree, t.staging, rel, End(t.DiskOf(s.tree, g), trace));
    hide Step, Put, FileInv, SessionInv, End, CollisionFree, ClockApart, TraceInv;
  }
}
