/**
 What a success says about the payloads, and what the sender's own success is worth (`process_chunks` in
 crates/core/src/net/send.rs, `close_gracefully` in crates/core/src/net/connection_manager.rs): the sender is content
 once every chunk has been sent, whatever arrived.
 */
module Arrivals {
  import opened Wrappers
  import opened Chunks
  import opened Bitmap
  import opened Disk
  import opened Writer
  import opened CrashSafety
  import opened Instruction
  import opened Staging
  import opened Tree
  import opened Protocol
  import H = Handshake

  ghost predicate InRange(t: Transfer, task: H.Task)
    requires t.Valid()
  {
    task.0 < |t.jobs| && task.1 < t.jobs[task.0].meta.NumChunks()
  }

  /** The payload that arrived for a chunk of file f is the chunk. */
  ghost predicate Intact(t: Transfer, s: System, task: H.Task)
    requires t.Valid() && InRange(t, task)
  {
    task in s.arrived ==> s.arrived[task] == t.jobs[task.0].Chunk(task.1)
  }

  ghost predicate HasBit(t: Transfer, s: System, f: nat, i: nat)
    requires t.Valid() && Shaped(t, s) && f < |t.jobs|
  {
    InRange(t, (f, i)) && i < |s.sessions[f].vec.bits| && s.sessions[f].vec.bits[i]
  }

  /** Queued packets have arrived as they are, a set bit stands for an intact chunk, and what is awaited is missing. */
  ghost predicate FileTraced(t: Transfer, s: System, f: nat)
    requires t.Valid() && Shaped(t, s) && f < |t.jobs|
  {
    && (forall k :: 0 <= k < |s.queues[f]| ==>
          var packet := s.queues[f][k];
          (f, packet.index) in s.arrived && s.arrived[(f, packet.index)] == packet.bytes)
    && (forall i: nat :: HasBit(t, s, f, i) ==> Intact(t, s, (f, i)))
    && (forall i: nat :: (f, i) in s.todo ==> !HasBit(t, s, f, i) && (f, i) !in s.arrived)
  }

  ghost predicate Traced(t: Transfer, s: System)
    requires t.Valid() && Shaped(t, s)
  {
    && (s.phase == Live ==>
          && (forall f :: 0 <= f < |t.jobs| ==> FileTraced(t, s, f))
          && (forall task :: task in s.announced ==> InRange(t, task)))
    && (s.phase == Cleaning ==> forall task :: task in s.arrived ==> InRange(t, task) && Intact(t, s, task))
  }

  ghost predicate SameArrived(s: System, r: System, f: nat) {
    forall i: nat :: ((f, i) in s.arrived <==> (f, i) in r.arrived)
                     && ((f, i) in s.arrived ==> s.arrived[(f, i)] == r.arrived[(f, i)])
  }

  lemma ArrivedAlike(s: System, r: System, task: H.Task, bytes: Bytes, g: nat)
    requires r.arrived == s.arrived || (task.0 != g && r.arrived == s.arrived[task := bytes])
    ensures SameArrived(s, r, g)
  {
  }

  lemma FrameTraced(t: Transfer, s: System, r: System, f: nat)
    requires t.Valid() && Shaped(t, s) && Shaped(t, r) && f < |t.jobs| && FileTraced(t, s, f)
    requires r.sessions[f].vec == s.sessions[f].vec && (r.queues[f] == s.queues[f] || r.queues[f] == [])
    requires SameArrived(s, r, f) && forall i: nat :: (f, i) in r.todo ==> (f, i) in s.todo
    ensures FileTraced(t, r, f)
  {
    hide Transfer.Valid, Transfer.Sound, InRange, Job.Chunk;
    forall i: nat
      ensures HasBit(t, r, f, i) <==> HasBit(t, s, f, i)
      ensures HasBit(t, r, f, i) ==> (Intact(t, r, (f, i)) <==> Intact(t, s, (f, i)))
    {
    }
    hide HasBit, Intact;
  }

  lemma ArriveShape(t: Transfer, s: System, task: H.Task, bytes: Bytes)
    requires t.Valid() && Shaped(t, s) && InRange(t, task)
    ensures var r := Deliver(t, s, task, bytes);
            && r.arrived == s.arrived[task := bytes] && r.todo == s.todo - {task}
            && r.announced == s.announced && r.phase == s.phase
            && r.sessions[task.0].vec == s.sessions[task.0].vec
  {
    hide Transfer.Apart, CollisionFree, Job.Chunk;
  }

  lemma {:induction false} ArriveTraced(t: Transfer, s: System, task: H.Task, bytes: Bytes)
    requires t.Valid() && Inv(t, s) && Traced(t, s) && Enabled(t, s, Arrive(task, bytes))
    ensures Traced(t, Deliver(t, s, task, bytes))
  {
    var r, f := Deliver(t, s, task, bytes), task.0;
    assert task in s.announced && InRange(t, task);
    assert forall g :: 0 <= g < |t.jobs| ==> FileTraced(t, s, g);
    assert forall other :: other in s.announced ==> InRange(t, other);
    ArriveMoves(t, s, task, bytes);
    ArriveShape(t, s, task, bytes);
    ArriveQueue(t, s, task, bytes);
    assert Shaped(t, s) && s.phase == Live && task == (f, task.1);
    hide *;
    forall g | 0 <= g < |t.jobs|
      ensures FileTraced(t, r, g)
    {
      if g == f {
        ArriveFile(t, s, r, task, bytes);
      } else {
        ArrivedAlike(s, r, task, bytes, g);
        SameParts(t, s, r, g);
        FrameTraced(t, s, r, g);
      }
    }
    LiveTraced(t, r);
  }

  lemma SameParts(t: Transfer, s: System, r: System, g: nat)
    requires Shaped(t, s) && Shaped(t, r) && g < |t.jobs| && Same(t, s, r, g)
    ensures r.sessions[g] == s.sessions[g] && r.queues[g] == s.queues[g]
  {
  }

  lemma LiveTraced(t: Transfer, r: System)
    requires t.Valid() && Shaped(t, r) && r.phase == Live
    requires forall f :: 0 <= f < |t.jobs| ==> FileTraced(t, r, f)
    requires forall task :: task in r.announced ==> InRange(t, task)
    ensures Traced(t, r)
  {
  }

  lemma ArriveFile(t: Transfer, s: System, r: System, task: H.Task, bytes: Bytes)
    requires t.Valid() && Shaped(t, s) && Shaped(t, r) && InRange(t, task)
    requires FileTraced(t, s, task.0) && task in s.todo
    requires r.arrived == s.arrived[task := bytes] && r.todo == s.todo - {task}
    requires r.sessions[task.0].vec == s.sessions[task.0].vec
    requires r.queues[task.0] == s.queues[task.0]
             || exists hash :: r.queues[task.0] == s.queues[task.0] + [Packet(task.1, hash, bytes)]
    ensures FileTraced(t, r, task.0)
  {
    var f := task.0;
    hide Transfer.Apart, CollisionFree, Metadata.NumChunks, Job.Chunk;
    assert task == (f, task.1) && task !in s.arrived && !HasBit(t, s, f, task.1);
    forall i: nat
      ensures HasBit(t, r, f, i) <==> HasBit(t, s, f, i)
      ensures HasBit(t, r, f, i) ==> (Intact(t, r, (f, i)) <==> Intact(t, s, (f, i)))
    {
    }
    hide HasBit, Intact;
    forall k | 0 <= k < |r.queues[f]|
      ensures var packet := r.queues[f][k];
              (f, packet.index) in r.arrived && r.arrived[(f, packet.index)] == packet.bytes
    {
      if k < |s.queues[f]| { assert r.queues[f][k] == s.queues[f][k]; }
    }
  }

  /** A turn sets at most one bit, that of the intact chunk it took from the queue. */
  lemma TurnBits(t: Transfer, s: System, f: nat, event: Event)
    requires t.Valid() && Inv(t, s) && CanTurn(t, s, f, event)
    ensures var x := TurnOf(t, s, f, event).0;
            || x.vec.bits == s.sessions[f].vec.bits
            || (event.Receive? && InRange(t, (f, event.packet.index)) && event.packet.index < |s.sessions[f].vec.bits|
                && x.vec.bits == s.sessions[f].vec.bits[event.packet.index := true]
                && event.packet.bytes == t.jobs[f].Chunk(event.packet.index))
  {
    TurnAllowed(t, s, f, event);
    assert SlotInv(t, s, f);
    hide Inv, FileInv, SessionInv, ClockApart, Transfer.DiskOf, Transfer.Apart, Matched, Covered, Promise, TurnInv,
         TraceInv;
    StepSafe(t.jobs[f], t.hash, s.sessions[f], t.DiskOf(s.tree, f), event);
    hide Step;
  }

  lemma {:induction false} TurnTraced(t: Transfer, s: System, f: nat, event: Event)
    requires t.Valid() && Inv(t, s) && Traced(t, s) && CanTurn(t, s, f, event)
    ensures Traced(t, TurnTo(t, s, f, event))
  {
    var r := TurnTo(t, s, f, event);
    TurnMoves(t, s, f, event);
    TurnBits(t, s, f, event);
    assert event.Receive? ==> s.queues[f] != [] && event.packet == s.queues[f][0];
    assert forall g :: 0 <= g < |t.jobs| ==> FileTraced(t, s, g);
    assert forall other :: other in s.announced ==> InRange(t, other);
    assert Shaped(t, s);
    hide *;
    forall g | 0 <= g < |t.jobs|
      ensures FileTraced(t, r, g)
    {
      if g == f {
        TurnFile(t, s, r, f, event);
      } else {
        ArrivedAlike(s, r, (0, 0), [], g);
        SameParts(t, s, r, g);
        FrameTraced(t, s, r, g);
      }
    }
    LiveTraced(t, r);
  }

  lemma TurnFile(t: Transfer, s: System, r: System, f: nat, event: Event)
    requires t.Valid() && Shaped(t, s) && Shaped(t, r) && f < |t.jobs| && FileTraced(t, s, f)
    requires r.arrived == s.arrived && r.todo == s.todo
    requires forall k :: 0 <= k < |r.queues[f]| ==> k + 1 < |s.queues[f]| && r.queues[f][k] == s.queues[f][k + 1]
    requires event.Receive? ==> s.queues[f] != [] && event.packet == s.queues[f][0]
    requires var bits, bits1 := s.sessions[f].vec.bits, r.sessions[f].vec.bits;
             || bits1 == bits
             || (event.Receive? && InRange(t, (f, event.packet.index)) && event.packet.index < |bits|
                 && bits1 == bits[event.packet.index := true]
                 && event.packet.bytes == t.jobs[f].Chunk(event.packet.index))
    ensures FileTraced(t, r, f)
  {
    hide Transfer.Valid, Transfer.Sound, InRange, Job.Chunk;
    forall i: nat | HasBit(t, r, f, i) && !HasBit(t, s, f, i)
      ensures event.Receive? && i == event.packet.index && (f, i) in s.arrived && Intact(t, r, (f, i))
    {
    }
    forall i: nat
      ensures InRange(t, (f, i)) ==> (Intact(t, r, (f, i)) <==> Intact(t, s, (f, i)))
    {
    }
    hide Intact;
  }

  lemma {:induction false} HandshakeTraced(t: Transfer, s: System, order: seq<H.FileId>, now: nat)
    requires t.Valid() && Inv(t, s) && Enabled(t, s, Handshake(order, now))
    ensures Traced(t, Shake(t, s, order, now))
  {
    var r := Shake(t, s, order, now);
    HandshakeKeeps(t, s, order, now);
    HandshakeShape(t, s, order, now);
    hide Shake, Transfer.Apart, CollisionFree, ParseLarge, Transfer.DiskOf, Inv, H.Permutes, FileTraced, SkipRule;
    forall f | 0 <= f < |t.jobs|
      ensures FileTraced(t, r, f)
    {
      HandshakeOpens(t, s, order, now, f);
      FreshTraced(t, r, f);
    }
    forall task | task in r.announced
      ensures InRange(t, task)
    {
      OpenLength(t, r, task.0);
    }
  }

  lemma FreshTraced(t: Transfer, r: System, f: nat)
    requires t.Valid() && Shaped(t, r) && f < |t.jobs| && r.arrived == map[] && r.queues[f] == []
    requires forall task :: task in r.todo ==>
               task.0 < |t.jobs| && task.1 < |r.sessions[task.0].vec.bits| && !r.sessions[task.0].vec.bits[task.1]
    ensures FileTraced(t, r, f)
  {
    hide Transfer.Valid, Transfer.Sound, Job.Chunk;
  }

  lemma OpenLength(t: Transfer, r: System, f: nat)
    requires t.Valid() && Inv(t, r) && r.phase == Live && f < |t.jobs|
    ensures |r.sessions[f].vec.bits| == t.jobs[f].meta.NumChunks()
  {
    SlotLength(t, r, f);
  }

  lemma {:induction false} FinishTraced(t: Transfer, s: System)
    requires t.Valid() && Inv(t, s) && Traced(t, s) && Enabled(t, s, Finish)
    ensures Traced(t, Apply(t, s, Finish))
  {
    if Success(s) {
      forall task | task in s.arrived
        ensures InRange(t, task) && Intact(t, s, task)
      {
        assert task in s.announced;
        assert InRange(t, task) && FileTraced(t, s, task.0);
        FinishedBits(t, s, task.0);
        hide Inv, Transfer.Valid, Transfer.Sound, Enabled, Success, Intact;
        assert HasBit(t, s, task.0, task.1);
        assert task == (task.0, task.1);
      }
    }
    hide Inv, Transfer.Valid, Transfer.Sound, Enabled, Success, FileTraced;
  }

  lemma {:induction false} FinishedBits(t: Transfer, s: System, f: nat)
    requires t.Valid() && Inv(t, s) && Enabled(t, s, Finish) && Success(s) && f < |t.jobs|
    ensures |s.sessions[f].vec.bits| == t.jobs[f].meta.NumChunks() && s.sessions[f].Complete()
  {
    assert SlotInv(t, s, f) && Covered(s, f);
    assert Ended(s.sessions[f]) && !FailedWriter(s.sessions[f]);
    hide DiskInv, SessionInv, Exact, Transfer.DiskOf, Transfer.Apart, CollisionFree, Matched, Honest, Finished;
    if s.sessions[f].status == Waiting { NothingLeft(s, f); }
  }

  /** The other steps take nothing up, and drop whole queues at most. */
  ghost predicate Quiet(t: Transfer, s: System, r: System)
    requires Shaped(t, s) && Shaped(t, r)
  {
    && r.arrived == s.arrived && r.announced == s.announced && r.todo <= s.todo
    && (r.phase == s.phase || r.phase == Idle)
    && forall f :: 0 <= f < |t.jobs| ==>
         r.sessions[f].vec == s.sessions[f].vec && (r.queues[f] == s.queues[f] || r.queues[f] == [])
  }

  lemma QuietStep(t: Transfer, s: System, l: Label)
    requires t.Valid() && Shaped(t, s) && Enabled(t, s, l)
    requires !l.Handshake? && !l.Arrive? && !l.Turn? && !l.Finish?
    ensures Quiet(t, s, Apply(t, s, l))
  {
    hide Transfer.Apart, CollisionFree, TurnOf, Transfer.Act, Write, CrashTree, Caught, Transfer.DiskOf, Transfer.Uses,
         ClockApart, SkipRule;
  }

  lemma {:induction false} QuietTraced(t: Transfer, s: System, l: Label)
    requires t.Valid() && Inv(t, s) && Traced(t, s) && Enabled(t, s, l)
    requires !l.Handshake? && !l.Arrive? && !l.Turn? && !l.Finish?
    ensures Traced(t, Apply(t, s, l))
  {
    var r := Apply(t, s, l);
    QuietStep(t, s, l);
    assert Shaped(t, s);
    hide Inv, Apply, Enabled, Transfer.Apart, CollisionFree, FileTraced, Intact, InRange, SkipRule;
    if r.phase == Live {
      forall f | 0 <= f < |t.jobs|
        ensures FileTraced(t, r, f)
      {
        ArrivedAlike(s, r, (0, 0), [], f);
        FrameTraced(t, s, r, f);
      }
    }
    forall task | r.phase == Cleaning && task in r.arrived
      ensures InRange(t, task) && Intact(t, r, task)
    {
      IntactSame(t, s, r, task);
    }
  }

  lemma IntactSame(t: Transfer, s: System, r: System, task: H.Task)
    requires t.Valid() && InRange(t, task) && Intact(t, s, task) && r.arrived == s.arrived
    ensures Intact(t, r, task)
  {
    hide Transfer.Valid, Transfer.Sound, Job.Chunk;
  }

  lemma {:induction false} StepTraced(t: Transfer, s: System, l: Label)
    requires t.Valid() && Inv(t, s) && Traced(t, s) && Enabled(t, s, l)
    ensures Traced(t, Apply(t, s, l))
  {
    match l
    case Handshake(order, now) => HandshakeTraced(t, s, order, now);
    case Arrive(task, bytes) => ArriveTraced(t, s, task, bytes);
    case Turn(f, event) => TurnTraced(t, s, f, event);
    case Finish => FinishTraced(t, s);
    case _ => QuietTraced(t, s, l);
  }

  lemma {:induction false} RunTraced(t: Transfer, s: System, labels: seq<Label>, last: System)
    requires t.Valid() && Inv(t, s) && Traced(t, s) && Runs(t, s, labels, last)
    ensures Inv(t, last) && Traced(t, last)
    decreases |labels|
  {
    InvShaped(t, s);
    hide Apply, Enabled, Inv, Traced;
    if labels != [] {
      StepKeeps(t, s, labels[0]);
      StepTraced(t, s, labels[0]);
      InvShaped(t, Apply(t, s, labels[0]));
      RunTraced(t, Apply(t, s, labels[0]), labels[1..], last);
    }
  }

  lemma InvShaped(t: Transfer, s: System)
    requires t.Valid() && Inv(t, s)
    ensures Shaped(t, s)
  {
  }

  lemma ReachableTraced(t: Transfer, s: System)
    requires t.Valid() && Reachable(t, s)
    ensures Inv(t, s) && Traced(t, s)
  {
    hide Runs, Inv, Traced;
    var first: System, labels: seq<Label> :| Shaped(t, first) && Init(t, first) && Runs(t, first, labels, s);
    InitInv(t, first);
    InitTraced(t, first);
    RunTraced(t, first, labels, s);
  }

  lemma InitTraced(t: Transfer, s: System)
    requires t.Valid() && Init(t, s)
    ensures Traced(t, s)
  {
  }

  /** In every run, success means that exactly the announced chunks arrived, each of them intact. */
  lemma SuccessIntact(t: Transfer, s: System)
    requires t.Valid() && Reachable(t, s) && s.phase == Cleaning
    ensures s.arrived.Keys == s.announced
    ensures forall task :: task in s.arrived ==> InRange(t, task) && s.arrived[task] == t.jobs[task.0].Chunk(task.1)
  {
    ReachableTraced(t, s);
    hide Reachable, DiskInv, Transfer.Apart, CollisionFree, Finished, Matched;
  }

  /** What has arrived stays as it arrived, until the next handshake. */
  lemma {:induction false} ArrivedStays(t: Transfer, s: System, labels: seq<Label>, last: System, task: H.Task)
    requires t.Valid() && Inv(t, s) && Traced(t, s) && Runs(t, s, labels, last) && task in s.arrived
    requires forall k :: 0 <= k < |labels| ==> !labels[k].Handshake?
    ensures task in last.arrived && last.arrived[task] == s.arrived[task]
    decreases |labels|
  {
    if labels != [] {
      StepKeeps(t, s, labels[0]);
      StepTraced(t, s, labels[0]);
      ArrivedStep(t, s, labels[0], task);
      hide Apply, Enabled, Inv, Traced;
      InvShaped(t, Apply(t, s, labels[0]));
      ArrivedStays(t, Apply(t, s, labels[0]), labels[1..], last, task);
    }
  }

  lemma {:induction false} DeliverCounts(t: Transfer, s: System, task: H.Task, bytes: Bytes)
    requires t.Valid() && Shaped(t, s)
    ensures var r := Deliver(t, s, task, bytes);
            && r.arrived == s.arrived[task := bytes] && r.todo == s.todo - {task}
            && r.announced == s.announced && r.phase == s.phase
  {
    hide Transfer.Apart, CollisionFree, Job.Chunk, SkipRule, Metadata.NumChunks;
  }

  lemma TurnCounts(t: Transfer, s: System, f: nat, event: Event)
    requires Shaped(t, s) && CanTurn(t, s, f, event)
    ensures var r := TurnTo(t, s, f, event);
            r.arrived == s.arrived && r.todo == s.todo && r.announced == s.announced && r.phase == s.phase
  {
    hide TurnOf, Transfer.Act, Transfer.DiskOf, ClockApart;
  }

  /** What a step does to the arrivals. */
  lemma {:induction false} Counts(t: Transfer, s: System, l: Label)
    requires t.Valid() && Shaped(t, s) && Enabled(t, s, l) && !l.Handshake?
    ensures var r := Apply(t, s, l); r.arrived == if l.Arrive? then s.arrived[l.task := l.bytes] else s.arrived
  {
    match l
    case Arrive(task, bytes) => DeliverCounts(t, s, task, bytes);
    case Turn(f, event) => TurnCounts(t, s, f, event);
    case Finish =>
    case _ => QuietStep(t, s, l);
  }

  lemma {:induction false} ArrivedStep(t: Transfer, s: System, l: Label, task: H.Task)
    requires t.Valid() && Inv(t, s) && Traced(t, s) && Enabled(t, s, l) && !l.Handshake? && task in s.arrived
    ensures var r := Apply(t, s, l); task in r.arrived && r.arrived[task] == s.arrived[task]
  {
    if l.Arrive? {
      assert l.task.0 < |t.jobs| && FileTraced(t, s, l.task.0);
      assert l.task == (l.task.0, l.task.1);
    }
    InvShaped(t, s);
    hide Inv, Apply, Transfer.Valid, Transfer.Sound, Traced;
    Counts(t, s, l);
  }

  /** No losses, faults, cancels or crashes: chunks arrive, with any payload, writers turn, the round ends. */
  ghost predicate Undisturbed(l: Label) {
    l.Arrive? || l.Turn? || l.Finish?
  }

  ghost predicate AllUndisturbed(labels: seq<Label>) {
    forall k :: 0 <= k < |labels| ==> Undisturbed(labels[k])
  }

  /** Every payload that arrived was the chunk it was announced as. */
  ghost predicate AllIntact(t: Transfer, labels: seq<Label>)
    requires t.Valid()
  {
    forall k :: 0 <= k < |labels| && labels[k].Arrive? ==> Gentle(t, labels[k])
  }

  /** The round has run to its end: everything the sender was told to send has been sent and taken. */
  ghost predicate AtEnd(t: Transfer, s: System)
    requires t.Valid() && Shaped(t, s)
  {
    forall l: Label :: Undisturbed(l) ==> !Enabled(t, s, l)
  }

  /** Nothing but arrivals takes a chunk from the awaited ones. */
  lemma {:induction false} AllSent(t: Transfer, s: System, labels: seq<Label>, last: System)
    requires t.Valid() && Shaped(t, s) && Runs(t, s, labels, last) && AllUndisturbed(labels)
    requires s.announced == s.todo + Handed(s) && (s.phase != Live ==> s.todo == {})
    ensures last.announced == last.todo + Handed(last) && (last.phase != Live ==> last.todo == {})
    decreases |labels|
  {
    if labels != [] {
      assert Undisturbed(labels[0]);
      SentStep(t, s, labels[0]);
      hide Apply, Enabled, Undisturbed;
      AllSent(t, Apply(t, s, labels[0]), labels[1..], last);
    }
  }

  lemma SentStep(t: Transfer, s: System, l: Label)
    requires t.Valid() && Shaped(t, s) && Enabled(t, s, l) && Undisturbed(l)
    requires s.announced == s.todo + Handed(s) && (s.phase != Live ==> s.todo == {})
    ensures var r := Apply(t, s, l); r.announced == r.todo + Handed(r) && (r.phase != Live ==> r.todo == {})
  {
    hide Transfer.Valid, Transfer.Sound, Deliver, TurnTo, CanTurn, Success;
    match l
    case Arrive(task, bytes) => DeliverCounts(t, s, task, bytes);
    case Turn(f, event) => TurnCounts(t, s, f, event);
    case Finish =>
  }

  lemma {:induction false} FirstStep(t: Transfer, s: System, labels: seq<Label>, last: System)
    requires t.Valid() && Inv(t, s) && Traced(t, s) && Runs(t, s, labels, last) && labels != []
    ensures Enabled(t, s, labels[0])
    ensures var r := Apply(t, s, labels[0]); Inv(t, r) && Traced(t, r) && Runs(t, r, labels[1..], last)
  {
    InvShaped(t, s);
    hide Apply, Enabled, Inv, Traced, Transfer.Valid, Transfer.Sound;
    StepKeeps(t, s, labels[0]);
    StepTraced(t, s, labels[0]);
  }

  lemma RestUndisturbed(labels: seq<Label>)
    requires AllUndisturbed(labels) && labels != []
    ensures Undisturbed(labels[0]) && AllUndisturbed(labels[1..])
    ensures forall k :: 0 <= k < |labels[1..]| ==> !labels[1..][k].Handshake?
  {
    forall k | 0 <= k < |labels[1..]|
      ensures Undisturbed(labels[1..][k])
    {
      assert Undisturbed(labels[k + 1]);
    }
  }

  lemma {:induction false} ArrivalsShow(t: Transfer, s: System, labels: seq<Label>, last: System, k: nat)
    requires t.Valid() && Inv(t, s) && Traced(t, s) && Runs(t, s, labels, last) && AllUndisturbed(labels)
    requires k < |labels| && labels[k].Arrive?
    ensures labels[k].task in last.arrived && last.arrived[labels[k].task] == labels[k].bytes
    decreases |labels|
  {
    hide *;
    InvShaped(t, s);
    FirstStep(t, s, labels, last);
    var r := Apply(t, s, labels[0]);
    RestUndisturbed(labels);
    if k == 0 {
      ArriveSets(t, s, labels[0]);
      ArrivedStays(t, r, labels[1..], last, labels[0].task);
    } else {
      ArrivalsShow(t, r, labels[1..], last, k - 1);
    }
  }

  lemma ArriveSets(t: Transfer, s: System, l: Label)
    requires t.Valid() && Shaped(t, s) && l.Arrive? && Enabled(t, s, l)
    ensures var r := Apply(t, s, l); l.task in r.arrived && r.arrived[l.task] == l.bytes
  {
    hide Apply, Transfer.Valid, Transfer.Sound, Enabled;
    Counts(t, s, l);
  }

  /**
   What the sender's success is worth. In a round that nothing disturbs and that has run to its end, every announced
   chunk has been sent, so the sender reports success, and closing gracefully it never learns more. The receiver
   succeeds if and only if every payload arrived intact.
   */
  lemma {:induction false} SenderOkIff(t: Transfer, s: System, order: seq<H.FileId>, now: nat, labels: seq<Label>,
                                       last: System)
    requires t.Valid() && Reachable(t, s) && Enabled(t, s, Handshake(order, now))
    requires Runs(t, Shake(t, s, order, now), labels, last) && AllUndisturbed(labels) && AtEnd(t, last)
    ensures Handed(last) == last.announced
    ensures last.phase == Cleaning <==> AllIntact(t, labels)
  {
    var r := Shake(t, s, order, now);
    RoundBegins(t, s, order, now);
    hide *;
    AllSent(t, r, labels, last);
    RunTraced(t, r, labels, last);
    NothingAwaited(t, last);
    if last.phase == Cleaning { SuccessShows(t, r, labels, last); }
    if AllIntact(t, labels) { GentleEnds(t, s, order, now, labels, last); }
    AllHanded(last);
  }

  lemma AllHanded(s: System)
    requires s.announced == s.todo + Handed(s) && s.todo == {}
    ensures Handed(s) == s.announced
  {
  }

  lemma SuccessShows(t: Transfer, s: System, labels: seq<Label>, last: System)
    requires t.Valid() && Inv(t, s) && Traced(t, s) && Runs(t, s, labels, last) && AllUndisturbed(labels)
    requires Inv(t, last) && Traced(t, last) && last.phase == Cleaning
    ensures AllIntact(t, labels)
  {
    InvShaped(t, last);
    hide Inv, Traced, Runs, Gentle, AllUndisturbed, Transfer.Valid, Transfer.Sound;
    forall k | 0 <= k < |labels| && labels[k].Arrive?
      ensures Gentle(t, labels[k])
    {
      ArrivalsShow(t, s, labels, last, k);
      CleanGentle(t, last, labels[k]);
    }
  }

  lemma RoundBegins(t: Transfer, s: System, order: seq<H.FileId>, now: nat)
    requires t.Valid() && Reachable(t, s) && Enabled(t, s, Handshake(order, now))
    ensures var r := Shake(t, s, order, now);
            Inv(t, r) && Traced(t, r) && r.phase == Live && r.announced == r.todo + Handed(r)
  {
    ReachableTraced(t, s);
    HandshakeKeeps(t, s, order, now);
    HandshakeTraced(t, s, order, now);
    HandshakeShape(t, s, order, now);
    hide Inv, Traced, Shake, Reachable, Transfer.Apart, CollisionFree, H.Permutes;
  }

  lemma NothingAwaited(t: Transfer, s: System)
    requires t.Valid() && Shaped(t, s) && AtEnd(t, s) && (s.phase != Live ==> s.todo == {})
    ensures s.todo == {}
  {
    if task :| task in s.todo {
      assert Undisturbed(Arrive(task, [])) && Enabled(t, s, Arrive(task, []));
    }
  }

  lemma CleanGentle(t: Transfer, s: System, l: Label)
    requires t.Valid() && Shaped(t, s) && Traced(t, s) && s.phase == Cleaning
    requires l.Arrive? && l.task in s.arrived && s.arrived[l.task] == l.bytes
    ensures Gentle(t, l)
  {
    hide Transfer.Apart, CollisionFree, Job.Chunk;
  }

  lemma GentleEnds(t: Transfer, s: System, order: seq<H.FileId>, now: nat, labels: seq<Label>, last: System)
    requires t.Valid() && Reachable(t, s) && Enabled(t, s, Handshake(order, now))
    requires Runs(t, Shake(t, s, order, now), labels, last) && AllUndisturbed(labels) && AtEnd(t, last)
    requires AllIntact(t, labels)
    ensures last.phase == Cleaning
  {
    forall k | 0 <= k < |labels|
      ensures Gentle(t, labels[k])
    {
      assert Undisturbed(labels[k]);
      GentleIs(t, labels[k]);
    }
    assert AllGentle(t, labels);
    hide *;
    forall l: Label | Gentle(t, l)
      ensures !Enabled(t, last, l)
    {
      GentleIs(t, l);
      EndOf(t, last, l);
    }
    ResumeCompletes(t, s, order, now, labels, last);
  }

  lemma GentleIs(t: Transfer, l: Label)
    requires t.Valid()
    ensures Gentle(t, l) <==> Undisturbed(l) && (l.Arrive? ==> Gentle(t, l))
  {
    hide Transfer.Valid, Transfer.Sound, Job.Chunk;
  }

  lemma EndOf(t: Transfer, s: System, l: Label)
    requires t.Valid() && Shaped(t, s) && AtEnd(t, s) && Undisturbed(l)
    ensures !Enabled(t, s, l)
  {
    hide Transfer.Valid, Transfer.Sound, Enabled;
  }
}
