/**
 The end-to-end claim without separate paths: two selections of one name (`build` in
 crates/core/src/protocol/manifest.rs gives both the same relative path), and an undisturbed round that reports success
 with the bytes of the second file at the final path of the first.
 */
module TwoSelections {
  import opened Wrappers
  import opened Chunks
  import opened Bitmap
  import opened Disk
  import opened Writer
  import opened CrashSafety
  import opened Instruction
  import opened Staging
  import opened Tree
  import opened Protocol
  import H = Handshake

  const NOTHING: Disk := Disk(None, None, None)

  /** Two single-chunk files of one path, the second no shorter than the first. */
  ghost predicate OneName(t: Transfer) {
    && t.Sound() && |t.jobs| == 2 && t.mode == Overwrite && t.kept == map[]
    && Rel(t.jobs[0].meta) == Rel(t.jobs[1].meta)
    && Placed(t.staging, Rel(t.jobs[0].meta)) && !NamesStaging(t.staging, Rel(t.jobs[0].meta))
    && !t.jobs[0].meta.Staged() && !t.jobs[1].meta.Staged() && t.jobs[0].meta.size <= t.jobs[1].meta.size
  }

  /** Some run from here ends in success with the second file's bytes at the first file's final path. */
  ghost predicate Loses(t: Transfer, s: System)
    requires OneName(t) && Shaped(t, s)
  {
    exists labels: seq<Label>, last: System ::
      && Runs(t, s, labels, last) && last.phase == Cleaning
      && FinalOf(t, last, 0).Some? && FinalOf(t, last, 0).value.data == t.jobs[1].source
  }

  lemma LosesBefore(t: Transfer, s: System, l: Label)
    requires OneName(t) && Shaped(t, s) && Enabled(t, s, l) && Loses(t, Apply(t, s, l))
    ensures Loses(t, s)
  {
    hide Apply, Enabled, FinalOf;
    var labels: seq<Label>, last: System :|
      && Runs(t, Apply(t, s, l), labels, last) && last.phase == Cleaning
      && FinalOf(t, last, 0).Some? && FinalOf(t, last, 0).value.data == t.jobs[1].source;
    assert ([l] + labels)[1..] == labels;
    assert Runs(t, s, [l] + labels, last);
  }

  /** A file whose only chunk is awaited, on a disk it can be written on. */
  ghost predicate Ready(t: Transfer, s: System, f: nat)
    requires OneName(t) && Shaped(t, s) && f < 2
  {
    && s.phase == Live && (f, 0) in s.todo && s.queues[f] == [] && s.sessions[f].status == Waiting
    && FileInv(t.jobs[f], t.DiskOf(s.tree, f)) && SessionInv(t.jobs[f], s.sessions[f], t.DiskOf(s.tree, f))
  }

  /** What the delivery and the turn of file f leave. */
  ghost predicate Stored(t: Transfer, s: System, r: System, f: nat)
    requires OneName(t) && Shaped(t, s) && Shaped(t, r) && f < 2
  {
    && r.phase == Live && r.sessions == s.sessions[f := r.sessions[f]] && r.sessions[f].status == Committed
    && r.queues == s.queues && r.todo == s.todo - {(f, 0)} && r.error == s.error && r.cancelled == s.cancelled
    && Exact(t.jobs[f], t.DiskOf(r.tree, f)) && t.DiskOf(r.tree, f).state == None
  }

  function PacketOf(t: Transfer, f: nat, bytes: Bytes): Packet
    requires f < |t.jobs|
  {
    Packet(0, t.hash(bytes), bytes)
  }

  ghost function Delivered(t: Transfer, s: System, f: nat): (r: System)
    requires OneName(t) && Shaped(t, s) && f < 2
    ensures Shaped(t, r)
  {
    NumChunksBounds(t.jobs[f].meta);
    Deliver(t, s, (f, 0), t.jobs[f].Chunk(0))
  }

  ghost function Taken(t: Transfer, f: nat): Event
    requires OneName(t) && f < 2
  {
    NumChunksBounds(t.jobs[f].meta);
    Receive(PacketOf(t, f, t.jobs[f].Chunk(0)), 0, true)
  }

  lemma DeliveredIs(t: Transfer, s: System, f: nat)
    requires OneName(t) && Shaped(t, s) && f < 2 && Ready(t, s, f)
    ensures var r := Delivered(t, s, f);
            && r.sessions == s.sessions[f := s.sessions[f].(status := Running)] && r.tree == s.tree
            && r.queues == s.queues[f := [Taken(t, f).packet]] && r.todo == s.todo - {(f, 0)}
            && r.phase == Live && r.error == s.error && r.cancelled == s.cancelled
            && CanTurn(t, r, f, Taken(t, f))
  {
    NumChunksBounds(t.jobs[f].meta);
    hide SessionInv, FileInv, CollisionFree, Transfer.DiskOf, Job.Chunk, Placed, NamesStaging;
    assert [] + [Taken(t, f).packet] == [Taken(t, f).packet];
  }

  /** The only chunk, intact, completes the file: its turn commits. */
  lemma Commits(j: Job, hash: Hash, x: Session, d: Disk, event: Event)
    requires j.Valid() && j.mode == Overwrite && !j.meta.Staged() && FileInv(j, d) && SessionInv(j, x, d)
    requires x.status == Running && event.Receive? && event.packet.index == 0 < j.meta.NumChunks() == 1
    requires event.packet.bytes == j.Chunk(0) && event.packet.hash == hash(j.Chunk(0))
    ensures var (x1, trace) := Step(j.meta, hash, x, d, event);
            x1.vec.Valid() && x1.status == Committed && Exact(j, End(d, trace)) && End(d, trace).state == None
  {
    PacketSafe(j, hash, x, d, event.packet, event.now, event.touched);
    var x1 := Step(j.meta, hash, x, d, event).0;
    assert |x.vec.bits| == 1 && x1.vec.bits == [true];
    assert x1.Complete();
    hide Step, FileInv, Exact, TraceInv, Backed, DiskBits, End, Job.Chunk;
  }

  lemma {:induction false} TurnCommits(t: Transfer, s: System, f: nat)
    requires OneName(t) && Shaped(t, s) && f < 2 && Ready(t, s, f)
    ensures var r := Delivered(t, s, f);
            CanTurn(t, r, f, Taken(t, f))
            && var (x, trace) := TurnOf(t, r, f, Taken(t, f));
               var after := End(t.DiskOf(s.tree, f), trace);
               x.status == Committed && Exact(t.jobs[f], after) && after.state == None
  {
    DeliveredIs(t, s, f);
    NumChunksBounds(t.jobs[f].meta);
    var d := t.DiskOf(s.tree, f);
    RunningToo(t.jobs[f], s.sessions[f], d);
    hide SessionInv, FileInv, Job.Chunk, Exact, Placed, NamesStaging, CollisionFree, Step, End, View, Delivered,
         CanTurn, Metadata.NumChunks;
    Commits(t.jobs[f], t.hash, Delivered(t, s, f).sessions[f], d, Taken(t, f));
  }

  lemma OwnAct(t: Transfer, tree: Tree, f: nat, trace: seq<Disk>)
    requires OneName(t) && f < 2
    ensures t.DiskOf(t.Act(tree, f, trace), f) == End(t.DiskOf(tree, f), trace)
  {
    var rel := Rel(t.jobs[f].meta);
    StagingPlace(t.staging, rel);
    hide End, View, Put, InStaging, Placed, NamesStaging, CollisionFree;
    PutOwn(tree, t.staging, rel, End(t.DiskOf(tree, f), trace));
  }

  /** A turn that ends the writer of f, on the fields. */
  lemma TurnIs(t: Transfer, s: System, f: nat, event: Event)
    requires OneName(t) && Shaped(t, s) && f < 2 && CanTurn(t, s, f, event)
    requires TurnOf(t, s, f, event).0.status != Running
    ensures var (r, x) := (TurnTo(t, s, f, event), TurnOf(t, s, f, event).0);
            && r.phase == s.phase && r.sessions == s.sessions[f := x] && r.queues == s.queues[f := []]
            && r.todo == s.todo && r.error == s.error && r.cancelled == (s.cancelled || x.status == Rejected)
            && t.DiskOf(r.tree, f) == End(t.DiskOf(s.tree, f), TurnOf(t, s, f, event).1)
  {
    OwnAct(t, s.tree, f, TurnOf(t, s, f, event).1);
    hide OneName, TurnOf, CanTurn, End, Transfer.DiskOf, Transfer.Act;
  }

  lemma {:induction false} StoresFile(t: Transfer, s: System, f: nat)
    requires OneName(t) && Shaped(t, s) && f < 2 && Ready(t, s, f)
    ensures var r := Delivered(t, s, f);
            CanTurn(t, r, f, Taken(t, f)) && Stored(t, s, TurnTo(t, r, f, Taken(t, f)), f)
  {
    var r, event := Delivered(t, s, f), Taken(t, f);
    DeliveredIs(t, s, f);
    TurnCommits(t, s, f);
    assert s.queues[f] == [];
    hide Ready, Exact, OneName, TurnOf, CanTurn, Delivered, Taken, End, Transfer.DiskOf, TurnTo, Shaped;
    TurnIs(t, r, f, event);
    SetTwice(s.queues, f, [event.packet], []);
    SetTwice(s.sessions, f, r.sessions[f], TurnOf(t, r, f, event).0);
  }

  lemma SetTwice<T>(values: seq<T>, f: nat, first: T, second: T)
    requires f < |values|
    ensures values[f := first][f := second] == values[f := second]
  {
  }

  lemma RunningToo(j: Job, x: Session, d: Disk)
    requires j.Valid() && SessionInv(j, x, d)
    ensures SessionInv(j, x.(status := Running), d)
  {
  }

  lemma StoreLoses(t: Transfer, s: System, f: nat)
    requires OneName(t) && Shaped(t, s) && f < 2 && Ready(t, s, f)
    requires CanTurn(t, Delivered(t, s, f), f, Taken(t, f))
    requires Loses(t, TurnTo(t, Delivered(t, s, f), f, Taken(t, f)))
    ensures Loses(t, s)
  {
    assert s.phase == Live && (f, 0) in s.todo;
    hide Loses, TurnTo, CanTurn, Ready, OneName;
    var r := Delivered(t, s, f);
    TurnBefore(t, r, f, Taken(t, f));
    ArriveBefore(t, s, f);
  }

  lemma TurnBefore(t: Transfer, s: System, f: nat, event: Event)
    requires OneName(t) && Shaped(t, s) && CanTurn(t, s, f, event) && Loses(t, TurnTo(t, s, f, event))
    ensures Loses(t, s)
  {
    hide Loses, TurnTo, CanTurn;
    LosesBefore(t, s, Turn(f, event));
  }

  lemma ArriveBefore(t: Transfer, s: System, f: nat)
    requires OneName(t) && Shaped(t, s) && f < 2 && s.phase == Live && (f, 0) in s.todo && Loses(t, Delivered(t, s, f))
    ensures Loses(t, s)
  {
    hide Loses, Deliver;
    NumChunksBounds(t.jobs[f].meta);
    LosesBefore(t, s, Arrive((f, 0), t.jobs[f].Chunk(0)));
  }

  lemma BothOpened(t: Transfer, s: System)
    requires OneName(t) && Shaped(t, s) && t.DiskOf(s.tree, 0) == NOTHING && H.Permutes([0, 1], 2)
    ensures var r := Shake(t, s, [0, 1], 0);
            && r.tree == s.tree && r.queues == [[], []]
            && forall f :: 0 <= f < 2 ==> r.sessions[f] == Opened(New(t.jobs[f].meta)) && |r.sessions[f].vec.bits| == 1
  {
    AllFresh(t, s);
    NumChunksBounds(t.jobs[0].meta);
    NumChunksBounds(t.jobs[1].meta);
    hide Parsed, TasksOf, States, Placed, NamesStaging, CollisionFree, View, H.Permutes;
    var r := Shake(t, s, [0, 1], 0);
    assert |r.queues| == 2 && r.queues == [[], []];
  }

  /** The first handshake: nothing is there, so both files are asked for. */
  lemma {:induction false} BothAsked(t: Transfer, s: System)
    requires OneName(t) && Shaped(t, s) && t.DiskOf(s.tree, 0) == NOTHING
    ensures H.Permutes([0, 1], 2)
    ensures var r := Shake(t, s, [0, 1], 0);
            && r.tree == s.tree && r.phase == Live && !r.error && !r.cancelled && r.queues == [[], []]
            && r.todo == {(0, 0), (1, 0)}
            && forall f :: 0 <= f < 2 ==> r.sessions[f] == Opened(New(t.jobs[f].meta))
  {
    TwoInOrder();
    BothOpened(t, s);
    HandshakeShape(t, s, [0, 1], 0);
    hide Shake, Placed, NamesStaging, CollisionFree, View, H.Permutes, Transfer.Sound;
    assert forall f :: 0 <= f < 2 ==> !New(t.jobs[f].meta).vec.bits[0];
  }

  lemma TwoInOrder()
    ensures H.Permutes([0, 1], 2)
  {
    forall id: H.FileId
      ensures id in [0, 1] <==> id < 2
    {
      if id == 0 { assert [0, 1][0] == id; }
      if id == 1 { assert [0, 1][1] == id; }
    }
  }

  lemma AllFresh(t: Transfer, s: System)
    requires OneName(t) && t.DiskOf(s.tree, 0) == NOTHING
    ensures AllValid(t.Metas())
    ensures var (instructions, tree) := Parsed(t, s, 0);
            tree == s.tree && forall f :: 0 <= f < 2 ==> instructions[f] == New(t.jobs[f].meta)
  {
    hide View, Placed, NamesStaging, CollisionFree;
    forall f | 0 <= f < 2
      ensures ParseLarge(Overwrite, t.Metas()[f], View(s.tree, t.staging, Rel(t.Metas()[f])), 0)
           == (New(t.jobs[f].meta), [])
    {
      assert View(s.tree, t.staging, Rel(t.jobs[f].meta)) == NOTHING;
      FreshParse(t.jobs[f].meta);
    }
    hide ParseLarge, New;
    ParseAllQuiet(Overwrite, t.staging, t.Metas(), 2, s.tree, 0);
  }

  lemma FreshParse(m: Metadata)
    requires m.Valid() && m.size > 0
    ensures ParseLarge(Overwrite, m, NOTHING, 0) == (New(m), [])
  {
    NumChunksBounds(m);
    assert !Zeros(m.NumChunks()).bits[0];
  }

  /** A fresh session of a single-chunk file may write over anything no longer than the file. */
  lemma FreshReady(j: Job, d: Disk)
    requires j.Valid() && j.mode == Overwrite && !j.meta.Staged() && d.state == None
    requires d.final.Some? ==> |d.final.value.data| <= j.meta.size
    ensures FileInv(j, d) && SessionInv(j, Opened(New(j.meta)), d)
  {
    NumChunksBounds(j.meta);
    assert !Zeros(j.meta.NumChunks()).bits[0];
  }

  lemma EndLoses(t: Transfer, s: System, r: System)
    requires OneName(t) && Shaped(t, s) && Shaped(t, r) && Stored(t, s, r, 1)
    requires s.todo == {(1, 0)} && s.sessions[0].status == Committed && !s.error && !s.cancelled
    ensures Loses(t, r)
  {
    var last := r.(phase := Cleaning);
    assert Enabled(t, r, Finish) && Success(r) && Apply(t, r, Finish) == last;
    SameView(t, last);
    assert FinalOf(t, last, 0) == t.DiskOf(r.tree, 1).final;
    hide Placed, NamesStaging, CollisionFree;
    assert Runs(t, last, [], last);
    hide Apply, Enabled;
    LosesBefore(t, r, Finish);
  }

  /**
   Two selections of one name, sent into an empty place: a run without any disturbance ends in success, and at the final
   path of the first file are the bytes of the second.
   */
  lemma SuccessWithWrongBytes(t: Transfer, s: System)
    requires OneName(t) && Shaped(t, s) && s.phase == Idle && t.DiskOf(s.tree, 0) == NOTHING
    ensures Loses(t, s)
  {
    BothAsked(t, s);
    hide Loses, Shake, H.Permutes, Transfer.DiskOf, OneName;
    BothStored(t, Shake(t, s, [0, 1], 0));
    ShakeBefore(t, s);
  }

  lemma {:induction false} BothStored(t: Transfer, s: System)
    requires OneName(t) && Shaped(t, s) && s.phase == Live && !s.error && !s.cancelled && s.queues == [[], []]
    requires s.todo == {(0, 0), (1, 0)} && t.DiskOf(s.tree, 0) == NOTHING
    requires forall f :: 0 <= f < 2 ==> s.sessions[f] == Opened(New(t.jobs[f].meta))
    ensures Loses(t, s)
  {
    FirstReady(t, s);
    StoresFile(t, s, 0);
    var s1 := TurnTo(t, Delivered(t, s, 0), 0, Taken(t, 0));
    SecondReady(t, s, s1);
    StoresFile(t, s1, 1);
    var s2 := TurnTo(t, Delivered(t, s1, 1), 1, Taken(t, 1));
    hide *;
    EndLoses(t, s1, s2);
    StoreLoses(t, s1, 1);
    StoreLoses(t, s, 0);
  }

  lemma FirstReady(t: Transfer, s: System)
    requires OneName(t) && Shaped(t, s) && s.phase == Live && s.queues == [[], []] && s.todo == {(0, 0), (1, 0)}
    requires t.DiskOf(s.tree, 0) == NOTHING && s.sessions[0] == Opened(New(t.jobs[0].meta))
    ensures Ready(t, s, 0)
  {
    hide Placed, NamesStaging, CollisionFree, Transfer.DiskOf, FileInv, SessionInv;
    FreshReady(t.jobs[0], t.DiskOf(s.tree, 0));
  }

  lemma SecondReady(t: Transfer, s: System, r: System)
    requires OneName(t) && Shaped(t, s) && Shaped(t, r) && Stored(t, s, r, 0)
    requires s.queues == [[], []] && s.todo == {(0, 0), (1, 0)} && s.sessions[1] == Opened(New(t.jobs[1].meta))
    ensures Ready(t, r, 1)
  {
    SameView(t, r);
    hide Placed, NamesStaging, CollisionFree, Transfer.DiskOf, FileInv, SessionInv;
    FreshReady(t.jobs[1], t.DiskOf(r.tree, 1));
  }

  lemma SameView(t: Transfer, s: System)
    requires OneName(t)
    ensures t.DiskOf(s.tree, 1) == t.DiskOf(s.tree, 0)
  {
  }

  lemma ShakeBefore(t: Transfer, s: System)
    requires OneName(t) && Shaped(t, s) && s.phase == Idle && H.Permutes([0, 1], 2) && Loses(t, Shake(t, s, [0, 1], 0))
    ensures Loses(t, s)
  {
    hide Loses, Shake, H.Permutes;
    LosesBefore(t, s, Handshake([0, 1], 0));
  }

  function OneByte(id: nat, value: byte): Job {
    Job(Metadata(id, "x", 1, 1, 0), [value], Overwrite)
  }

  /** Two files "x" of one byte each, sent to the root of an empty tree. */
  function TwoBytes(): Transfer {
    var hash := (bytes: Bytes) => if bytes == [0] then 0 else if bytes == [1] then 1 else 2;
    Transfer([OneByte(0, 0), OneByte(1, 1)], Overwrite, hash, TransferStaging([], None), map[])
  }

  lemma OneByteFree(id: nat, value: byte)
    requires value < 2
    ensures var j := OneByte(id, value); j.Valid() && CollisionFree(j, TwoBytes().hash)
  {
    var j := OneByte(id, value);
    assert j.meta.NumChunks() == 1 && j.Chunk(0) == [value];
  }

  lemma TwoBytesOneName()
    ensures OneName(TwoBytes())
  {
    var t := TwoBytes();
    OneByteFree(0, 0);
    OneByteFree(1, 1);
    hide CollisionFree;
    assert FirstSlash("x") == 1;
    assert Components("x") == ["x"];
    assert "x" != STAGING_DIR_NAME;
  }

  /** One such transfer, whose round loses the first file. */
  lemma {:induction false} OneByteLost()
    ensures exists t: Transfer, s: System ::
              OneName(t) && Shaped(t, s) && s.tree == map[] && t.jobs[0].source != t.jobs[1].source && Loses(t, s)
  {
    var t, idle := TwoBytes(), Session(BitVec([], []), false, false, 0, Waiting);
    TwoBytesOneName();
    assert t.jobs[0].source[0] != t.jobs[1].source[0];
    var s := System(Idle, map[], [idle, idle], [[], []], [[], []], {}, {}, map[], false, false);
    hide OneName, Loses;
    SuccessWithWrongBytes(t, s);
  }
}
