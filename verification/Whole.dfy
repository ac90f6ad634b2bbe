/**
 The whole receiver round (`process_chunks` in crates/core/src/net/recv.rs): small files first, then large ones, in one
 tree; and what a transfer leaves alone.
 */
module Whole {
  import opened Wrappers
  import opened Chunks
  import opened Disk
  import Instruction
  import opened Writer
  import opened CrashSafety
  import opened Staging
  import opened Tree
  import opened Protocol
  import opened Framing
  import S = SmallFiles
  import H = Handshake

  /** A path no large file of the transfer uses, outside the staging folder. */
  ghost predicate Outside(t: Transfer, p: Path) {
    !t.Uses(p) && !InStaging(t.staging, p)
  }

  ghost predicate Writes(l: Label, p: Path) {
    l.Elsewhere? && l.path == p
  }

  lemma ActSpares(t: Transfer, tree: Tree, f: nat, trace: seq<Disk>, p: Path)
    requires f < |t.jobs| && !t.Uses(p)
    ensures FileAt(t.Act(tree, f, trace), p) == FileAt(tree, p)
  {
    assert p !in Owned(t.staging, Instruction.Rel(t.jobs[f].meta));
    hide Owned, Put;
    PutElsewhere(tree, t.staging, Instruction.Rel(t.jobs[f].meta), End(t.DiskOf(tree, f), trace), p);
  }

  lemma {:induction false} CrashSpares(t: Transfer, s: System, inside: seq<Option<(Event, nat)>>, k: nat, p: Path)
    requires Shaped(t, s) && Caught(t, s, inside) && k <= |t.jobs| && !t.Uses(p)
    ensures FileAt(CrashTree(t, s, inside, k), p) == FileAt(s.tree, p)
  {
    hide Caught, Begun, Transfer.Act, Transfer.Uses;
    if k > 0 {
      CrashSpares(t, s, inside, k - 1, p);
      ActSpares(t, CrashTree(t, s, inside, k - 1), k - 1, Begun(t, s, inside, k - 1), p);
    }
  }

  lemma TurnSpares(t: Transfer, s: System, f: nat, event: Event, p: Path)
    requires Shaped(t, s) && CanTurn(t, s, f, event) && !t.Uses(p)
    ensures FileAt(TurnTo(t, s, f, event).tree, p) == FileAt(s.tree, p)
  {
    hide TurnOf, Transfer.Act, Transfer.Uses, Transfer.DiskOf, ClockApart;
    ActSpares(t, s.tree, f, TurnOf(t, s, f, event).1, p);
  }

  lemma DeliverSpares(t: Transfer, s: System, task: H.Task, bytes: Bytes)
    requires t.Valid() && Shaped(t, s)
    ensures Deliver(t, s, task, bytes).tree == s.tree
  {
    hide Transfer.Apart, CollisionFree, SkipRule, Job.Chunk, Metadata.NumChunks;
  }

  /** No step but a write to that very path changes what is outside. */
  lemma {:induction false} StepSpares(t: Transfer, s: System, l: Label, p: Path)
    requires t.Valid() && Inv(t, s) && Enabled(t, s, l) && Outside(t, p) && !Writes(l, p)
    ensures FileAt(Apply(t, s, l).tree, p) == FileAt(s.tree, p)
  {
    ShapedOf(t, s);
    hide Inv, Transfer.Valid, Transfer.Sound, Transfer.Uses, Transfer.Act, Transfer.DiskOf, CrashTree, Caught, Deliver,
         TurnTo, TurnOf, CanTurn, Shake, Success, H.Permutes, InStaging;
    match l
    case Handshake(order, now) => HandshakeKeeps(t, s, order, now);
    case Arrive(task, bytes) => DeliverSpares(t, s, task, bytes);
    case Turn(f, event) => TurnSpares(t, s, f, event, p);
    case Fault(f, event, at) =>
      TurnFile(t, s, f, event);
      ActSpares(t, s.tree, f, TurnOf(t, s, f, event).1[..at], p);
    case Crash(inside) => CrashSpares(t, s, inside, |t.jobs|, p);
    case _ =>
  }

  lemma TurnFile(t: Transfer, s: System, f: nat, event: Event)
    requires Shaped(t, s) && CanTurn(t, s, f, event)
    ensures f < |t.jobs|
  {
  }

  lemma ShapedOf(t: Transfer, s: System)
    requires t.Valid() && Inv(t, s)
    ensures Shaped(t, s)
  {
  }

  /**
   A transfer touches nothing else: over every run, what is at a path that is none of its own, nor in its staging
   folder, stays unless others write it.
   */
  lemma {:induction false} RunSpares(t: Transfer, s: System, labels: seq<Label>, last: System, p: Path)
    requires t.Valid() && Inv(t, s) && Runs(t, s, labels, last) && Outside(t, p)
    requires forall k :: 0 <= k < |labels| ==> !Writes(labels[k], p)
    ensures FileAt(last.tree, p) == FileAt(s.tree, p)
    decreases |labels|
  {
    ShapedOf(t, s);
    hide Inv, Enabled, Apply, Outside, Transfer.Valid, Transfer.Sound, FileAt, Writes;
    if labels != [] {
      FirstKeeps(t, s, labels, last);
      StepSpares(t, s, labels[0], p);
      RunSpares(t, Apply(t, s, labels[0]), labels[1..], last, p);
    }
  }

  /** The last write by others is what stays. */
  lemma {:induction false} RunWrote(t: Transfer, s: System, labels: seq<Label>, last: System, p: Path, k: nat)
    requires t.Valid() && Inv(t, s) && Runs(t, s, labels, last) && Outside(t, p)
    requires k < |labels| && Writes(labels[k], p) && forall m :: k < m < |labels| ==> !Writes(labels[m], p)
    ensures FileAt(last.tree, p) == labels[k].content
    decreases |labels|
  {
    ShapedOf(t, s);
    hide Inv, Apply, Enabled, Outside, Transfer.Valid, Transfer.Sound, FileAt, Writes;
    FirstKeeps(t, s, labels, last);
    var r, rest := Apply(t, s, labels[0]), labels[1..];
    hide *;
    if k == 0 {
      WriteShows(t, s, labels[0], p);
      RunSpares(t, r, rest, last, p);
    } else {
      RunWrote(t, r, rest, last, p, k - 1);
    }
  }

  lemma FirstKeeps(t: Transfer, s: System, labels: seq<Label>, last: System)
    requires t.Valid() && Inv(t, s) && Runs(t, s, labels, last) && labels != []
    ensures Enabled(t, s, labels[0])
    ensures var r := Apply(t, s, labels[0]); Inv(t, r) && Runs(t, r, labels[1..], last)
  {
    ShapedOf(t, s);
    hide Apply, Enabled, Inv, Transfer.Valid, Transfer.Sound;
    StepKeeps(t, s, labels[0]);
  }

  lemma WriteShows(t: Transfer, s: System, l: Label, p: Path)
    requires t.Valid() && Shaped(t, s) && Enabled(t, s, l) && Writes(l, p)
    ensures FileAt(Apply(t, s, l).tree, p) == l.content
  {
    hide Transfer.Valid, Transfer.Sound, Transfer.Uses;
  }

  /** `write_small_files_to_disk` in the tree: `place` is the final path of a path as it was sent. */
  function SmallLabels(payloads: seq<Payload>, place: Bytes -> Path, now: nat, touched: nat -> bool): (ls: seq<Label>)
    ensures |ls| == |payloads|
  {
    seq(|payloads|, k requires 0 <= k < |payloads| =>
      Elsewhere(place(payloads[k].path),
                Some(File(payloads[k].data, if touched(k) then payloads[k].modified else now))))
  }

  /** The small files that arrive go to final paths of their own, none a large file's or in the staging folder. */
  ghost predicate SmallApart(t: Transfer, files: seq<S.SmallFile>, arrivals: seq<nat>, place: Bytes -> Path) {
    && (forall n :: 0 <= n < |arrivals| ==> arrivals[n] < |files| && Outside(t, place(files[arrivals[n]].path)))
    && (forall n, m :: 0 <= n < m < |arrivals| && arrivals[n] < |files| && arrivals[m] < |files| ==>
          place(files[arrivals[n]].path) != place(files[arrivals[m]].path))
  }

  /**
   The receiver's verdict on a whole transfer: the small files as they were read, then any run without writes of others,
   reporting success. Then every small file that arrived is at its final path, every large one not skipped at the first
   handshake is the source, a skipped one is as it was, and whatever is outside the transfer is as it was.
   */
  lemma {:induction false} WholeTransfer(t: Transfer, s: System, files: seq<S.SmallFile>, data: seq<Bytes>,
                                         arrivals: seq<nat>, place: Bytes -> Path, now: nat, touched: nat -> bool,
                                         labels: seq<Label>, last: System)
    requires t.Valid() && Reachable(t, s) && |data| == |files| && (forall k :: k in arrivals ==> k < |files|)
    requires SmallApart(t, files, arrivals, place)
    requires var small := SmallLabels(SentAll(S.RecordsOf(files, data, arrivals)), place, now, touched);
             Runs(t, s, small + labels, last)
    requires (forall k :: 0 <= k < |labels| ==> !labels[k].Elsewhere?) && Enabled(t, last, Succeed)
    ensures SmallDone(files, data, arrivals, place, now, touched, last.tree)
    ensures forall f :: 0 <= f < |t.jobs| ==>
              && FinalOf(t, last, f).Some?
              && (if f in t.kept then FinalOf(t, last, f).value == t.kept[f]
                  else FinalOf(t, last, f).value.data == t.jobs[f].source)
    ensures RestKept(t, files, arrivals, place, s.tree, last.tree)
  {
    var payloads := SentAll(S.RecordsOf(files, data, arrivals));
    var small := SmallLabels(payloads, place, now, touched);
    ReachableInv(t, s);
    ReachableOn(t, s, small + labels, last);
    Arrived(files, data, arrivals);
    hide *;
    EndToEnd(t, last);
    WholeSmall(t, s, files, data, arrivals, place, now, touched, labels, last, payloads);
    WholeRest(t, s, files, arrivals, place, now, touched, labels, last, payloads);
  }

  /** The file as it was sent, with its own modification time where setting it worked. */
  function SentFile(file: S.SmallFile, data: Bytes, now: nat, timed: bool): File {
    File(data, if timed then file.modified else now)
  }

  ghost predicate SmallDone(files: seq<S.SmallFile>, data: seq<Bytes>, arrivals: seq<nat>, place: Bytes -> Path,
                            now: nat, touched: nat -> bool, tree: Tree)
    requires |data| == |files| && forall k :: k in arrivals ==> k < |files|
  {
    forall n :: 0 <= n < |arrivals| ==>
      && arrivals[n] in arrivals
      && FileAt(tree, place(files[arrivals[n]].path))
         == Some(SentFile(files[arrivals[n]], data[arrivals[n]], now, touched(n)))
  }

  /** No small file that arrives goes to p. */
  ghost predicate Spared(files: seq<S.SmallFile>, arrivals: seq<nat>, place: Bytes -> Path, p: Path)
    requires forall k :: k in arrivals ==> k < |files|
  {
    forall n :: 0 <= n < |arrivals| ==> arrivals[n] in arrivals && place(files[arrivals[n]].path) != p
  }

  ghost predicate RestKept(t: Transfer, files: seq<S.SmallFile>, arrivals: seq<nat>, place: Bytes -> Path, before: Tree,
                           after: Tree)
    requires forall k :: k in arrivals ==> k < |files|
  {
    forall p: Path :: Outside(t, p) && Spared(files, arrivals, place, p) ==> FileAt(after, p) == FileAt(before, p)
  }

  /** The tree has under a name what the store has. */
  ghost predicate Shows(tree: Tree, place: Bytes -> Path, store: S.Store, p: Bytes) {
    FileAt(tree, place(p)) == if p in store then Some(store[p]) else None
  }

  /** What becomes of small file i: kept if skipped, created if empty, else its bytes under the path it was sent. */
  ghost predicate SmallOutcome(mode: Mode, files: seq<S.SmallFile>, data: seq<Bytes>, before: S.Store,
                               parsedAt: nat, place: Bytes -> Path, tree: Tree, i: nat)
    requires |data| == |files| && i < |files|
  {
    var at := FileAt(tree, place(files[i].path));
    if S.TakenForDone(mode, files[i], before) then Shows(tree, place, before, files[i].resolved)
    else if files[i].size == 0 then FileAt(tree, place(files[i].resolved)) == Some(File([], parsedAt))
    else at.Some? && at.value.data == data[i]
  }

  /** The handshake judged the small files as the tree shows, and what it took for done is out of the way. */
  ghost predicate SmallParsed(t: Transfer, files: seq<S.SmallFile>, before: S.Store, parsedAt: nat, arrivals: seq<nat>,
                              place: Bytes -> Path, tree: Tree)
  {
    var (bits, parsed) := S.ParsedSmall(t.mode, files, before, parsedAt);
    && S.DistinctPaths(files) && S.AllArrived(bits, arrivals) && (forall k :: k in arrivals ==> k < |files|)
    && (forall i :: 0 <= i < |files| ==> Shows(tree, place, parsed, files[i].resolved))
    && forall i :: 0 <= i < |files| && bits[i] ==>
         var p := place(files[i].resolved); Outside(t, p) && Spared(files, arrivals, place, p)
  }

  /** And for every small file of the manifest, as the handshake judged it. */
  lemma {:induction false} WholeManifest(t: Transfer, s: System, files: seq<S.SmallFile>, data: seq<Bytes>,
                                         before: S.Store, parsedAt: nat, arrivals: seq<nat>, place: Bytes -> Path,
                                         now: nat, touched: nat -> bool, labels: seq<Label>, last: System)
    requires t.Valid() && Reachable(t, s) && |data| == |files|
    requires SmallParsed(t, files, before, parsedAt, arrivals, place, s.tree) && SmallApart(t, files, arrivals, place)
    requires var small := SmallLabels(SentAll(S.RecordsOf(files, data, arrivals)), place, now, touched);
             Runs(t, s, small + labels, last)
    requires (forall k :: 0 <= k < |labels| ==> !labels[k].Elsewhere?) && Enabled(t, last, Succeed)
    ensures forall i :: 0 <= i < |files| ==> SmallOutcome(t.mode, files, data, before, parsedAt, place, last.tree, i)
  {
    WholeTransfer(t, s, files, data, arrivals, place, now, touched, labels, last);
    var (bits, parsed) := S.ParsedSmall(t.mode, files, before, parsedAt);
    hide Runs, Reachable, Enabled, Transfer.Valid, S.ParsedSmall, SmallLabels, SentAll, S.RecordsOf, Outside, Spared,
         FileAt, SmallApart, S.DistinctPaths, Shows, SmallOutcome;
    forall i | 0 <= i < |files|
      ensures SmallOutcome(t.mode, files, data, before, parsedAt, place, last.tree, i)
    {
      if !bits[i] {
        assert i in arrivals;
        var n :| 0 <= n < |arrivals| && arrivals[n] == i;
      } else {
        assert FileAt(last.tree, place(files[i].resolved)) == FileAt(s.tree, place(files[i].resolved));
      }
      OutcomeIs(t.mode, files, data, before, parsedAt, place, s.tree, last.tree, i);
    }
  }

  lemma OutcomeIs(mode: Mode, files: seq<S.SmallFile>, data: seq<Bytes>, before: S.Store, parsedAt: nat,
                  place: Bytes -> Path, first: Tree, last: Tree, i: nat)
    requires |data| == |files| && i < |files| && S.DistinctPaths(files)
    requires Shows(first, place, S.ParsedSmall(mode, files, before, parsedAt).1, files[i].resolved)
    requires if S.ParsedSmall(mode, files, before, parsedAt).0[i]
             then FileAt(last, place(files[i].resolved)) == FileAt(first, place(files[i].resolved))
             else var at := FileAt(last, place(files[i].path)); at.Some? && at.value.data == data[i]
    ensures SmallOutcome(mode, files, data, before, parsedAt, place, last, i)
  {
    S.ParsedSmallIs(mode, files, before, parsedAt, i);
    hide S.ParsedSmall, S.Skips, FileAt, S.DistinctPaths;
  }

  lemma WholeSmall(t: Transfer, s: System, files: seq<S.SmallFile>, data: seq<Bytes>, arrivals: seq<nat>,
                   place: Bytes -> Path, now: nat, touched: nat -> bool, labels: seq<Label>, last: System,
                   payloads: seq<Payload>)
    requires t.Valid() && Inv(t, s) && |data| == |files| && (forall k :: k in arrivals ==> k < |files|)
    requires SmallApart(t, files, arrivals, place) && |payloads| == |arrivals|
    requires forall n :: 0 <= n < |arrivals| ==>
               && arrivals[n] < |files| && payloads[n].path == files[arrivals[n]].path
               && payloads[n].data == data[arrivals[n]] && payloads[n].modified == files[arrivals[n]].modified
    requires Runs(t, s, SmallLabels(payloads, place, now, touched) + labels, last)
    requires forall k :: 0 <= k < |labels| ==> !labels[k].Elsewhere?
    ensures SmallDone(files, data, arrivals, place, now, touched, last.tree)
  {
    hide Inv, Runs, Transfer.Valid, Transfer.Sound, Outside, FileAt, SmallApart, SmallLabels;
    forall n | 0 <= n < |arrivals|
      ensures FileAt(last.tree, place(files[arrivals[n]].path))
           == Some(SentFile(files[arrivals[n]], data[arrivals[n]], now, touched(n)))
    {
      ApartAt(t, files, arrivals, place, n);
      SmallStays(t, s, payloads, place, now, touched, labels, last, n);
    }
  }

  lemma WholeRest(t: Transfer, s: System, files: seq<S.SmallFile>, arrivals: seq<nat>, place: Bytes -> Path, now: nat,
                  touched: nat -> bool, labels: seq<Label>, last: System, payloads: seq<Payload>)
    requires t.Valid() && Inv(t, s) && (forall k :: k in arrivals ==> k < |files|) && |payloads| == |arrivals|
    requires forall n :: 0 <= n < |arrivals| ==> arrivals[n] < |files| && payloads[n].path == files[arrivals[n]].path
    requires Runs(t, s, SmallLabels(payloads, place, now, touched) + labels, last)
    requires forall k :: 0 <= k < |labels| ==> !labels[k].Elsewhere?
    ensures RestKept(t, files, arrivals, place, s.tree, last.tree)
  {
    hide Inv, Runs, Transfer.Valid, Transfer.Sound, Outside, FileAt, SmallLabels, Writes;
    forall p: Path | Outside(t, p) && Spared(files, arrivals, place, p)
      ensures FileAt(last.tree, p) == FileAt(s.tree, p)
    {
      assert forall n :: 0 <= n < |payloads| ==> place(payloads[n].path) != p;
      NoWrites(payloads, place, now, touched, labels, p);
      RunSpares(t, s, SmallLabels(payloads, place, now, touched) + labels, last, p);
    }
  }

  lemma Arrived(files: seq<S.SmallFile>, data: seq<Bytes>, arrivals: seq<nat>)
    requires |data| == |files| && forall k :: k in arrivals ==> k < |files|
    ensures var payloads := SentAll(S.RecordsOf(files, data, arrivals));
            |payloads| == |arrivals| && forall n :: 0 <= n < |arrivals| ==>
              && arrivals[n] < |files| && payloads[n].path == files[arrivals[n]].path
              && payloads[n].data == data[arrivals[n]] && payloads[n].modified == files[arrivals[n]].modified
  {
    forall n | 0 <= n < |arrivals|
      ensures arrivals[n] in arrivals
      ensures SentAll(S.RecordsOf(files, data, arrivals))[n]
           == Payload(files[arrivals[n]].path, files[arrivals[n]].modified, data[arrivals[n]])
    {
      S.PayloadAt(files, data, arrivals, n);
    }
    hide SentAll, S.RecordsOf;
  }

  lemma ApartAt(t: Transfer, files: seq<S.SmallFile>, arrivals: seq<nat>, place: Bytes -> Path, n: nat)
    requires SmallApart(t, files, arrivals, place) && n < |arrivals|
    ensures arrivals[n] < |files| && Outside(t, place(files[arrivals[n]].path))
    ensures forall m :: n < m < |arrivals| && arrivals[m] < |files| ==>
              place(files[arrivals[m]].path) != place(files[arrivals[n]].path)
  {
    hide Outside;
  }

  lemma NoWrites(payloads: seq<Payload>, place: Bytes -> Path, now: nat, touched: nat -> bool, labels: seq<Label>,
                 p: Path)
    requires forall n :: 0 <= n < |payloads| ==> place(payloads[n].path) != p
    requires forall k :: 0 <= k < |labels| ==> !labels[k].Elsewhere?
    ensures var all := SmallLabels(payloads, place, now, touched) + labels;
            forall k :: 0 <= k < |all| ==> !Writes(all[k], p)
  {
  }

  lemma SmallStays(t: Transfer, s: System, payloads: seq<Payload>, place: Bytes -> Path, now: nat, touched: nat -> bool,
                   labels: seq<Label>, last: System, n: nat)
    requires t.Valid() && Inv(t, s) && n < |payloads| && Outside(t, place(payloads[n].path))
    requires forall m :: n < m < |payloads| ==> place(payloads[m].path) != place(payloads[n].path)
    requires Runs(t, s, SmallLabels(payloads, place, now, touched) + labels, last)
    requires forall k :: 0 <= k < |labels| ==> !labels[k].Elsewhere?
    ensures FileAt(last.tree, place(payloads[n].path))
         == Some(File(payloads[n].data, if touched(n) then payloads[n].modified else now))
  {
    OneWrite(payloads, place, now, touched, labels, n);
    hide *;
    RunWrote(t, s, SmallLabels(payloads, place, now, touched) + labels, last, place(payloads[n].path), n);
  }

  lemma OneWrite(payloads: seq<Payload>, place: Bytes -> Path, now: nat, touched: nat -> bool, labels: seq<Label>,
                 n: nat)
    requires n < |payloads| && forall m :: n < m < |payloads| ==> place(payloads[m].path) != place(payloads[n].path)
    requires forall k :: 0 <= k < |labels| ==> !labels[k].Elsewhere?
    ensures var all, p := SmallLabels(payloads, place, now, touched) + labels, place(payloads[n].path);
            && n < |all| && Writes(all[n], p)
            && all[n].content == Some(File(payloads[n].data, if touched(n) then payloads[n].modified else now))
            && forall m :: n < m < |all| ==> !Writes(all[m], p)
  {
  }

  lemma ReachableOn(t: Transfer, s: System, labels: seq<Label>, last: System)
    requires t.Valid() && Reachable(t, s) && Runs(t, s, labels, last)
    ensures Reachable(t, last)
  {
    hide Init, Transfer.Valid, Transfer.Sound;
    var first: System, before: seq<Label> :| Shaped(t, first) && Init(t, first) && Runs(t, first, before, s);
    RunsOn(t, first, before, s, labels, last);
  }

  lemma {:induction false} RunsOn(t: Transfer, first: System, before: seq<Label>, s: System, labels: seq<Label>,
                                  last: System)
    requires t.Valid() && Shaped(t, first) && Runs(t, first, before, s) && Runs(t, s, labels, last)
    ensures Runs(t, first, before + labels, last)
    decreases |before|
  {
    hide Enabled, Apply, Transfer.Valid, Transfer.Sound, Shaped;
    if before == [] {
      assert before + labels == labels;
    } else {
      assert (before + labels)[1..] == before[1..] + labels;
      RunsOn(t, Apply(t, first, before[0]), before[1..], s, labels, last);
    }
  }

  /** A small file sent under the path a large one was resolved to is not outside: it shows as the large file. */
  lemma SmallMeetsLarge(t: Transfer, f: nat, tree: Tree, file: File)
    requires f < |t.jobs|
    ensures var p := t.staging.FinalPath(Instruction.Rel(t.jobs[f].meta));
            !Outside(t, p) && t.DiskOf(Write(tree, p, Some(file)), f).final == Some(file)
  {
    assert t.staging.FinalPath(Instruction.Rel(t.jobs[f].meta)) in Owned(t.staging, Instruction.Rel(t.jobs[f].meta));
  }
}
