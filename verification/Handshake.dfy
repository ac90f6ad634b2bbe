/**
 How the sender derives its work from the receiver's bitmaps, and how both sides count bytes
 (crates/core/src/net/send.rs, crates/core/src/net/recv.rs). The session map is a hash map: `order` is
 whatever order it iterates in.
 */
module Handshake {
  import opened Chunks

  type FileId = nat
  type Task = (FileId, nat)
  type Bits = seq<bool>
  type Sessions = map<FileId, Metadata>

  ghost predicate Usable(sessions: Sessions) {
    forall id :: id in sessions ==> sessions[id].Valid()
  }

  /** An iteration order of the map: every key once. */
  ghost predicate Enumerates(order: seq<FileId>, keys: set<FileId>) {
    && NoDup(order)
    && (forall id :: id in order <==> id in keys)
  }

  /** The same for the keys 0..n-1. */
  ghost predicate Permutes(order: seq<FileId>, n: nat) {
    NoDup(order) && forall id: FileId :: id in order <==> id < n
  }

  ghost predicate NoDup<T>(s: seq<T>) {
    forall i, k :: 0 <= i < k < |s| ==> s[i] != s[k]
  }

  lemma NoDupConcat<T>(a: seq<T>, b: seq<T>)
    requires NoDup(a) && NoDup(b) && forall x :: x in a ==> x !in b
    ensures NoDup(a + b)
  {
    var s := a + b;
    forall i, k | 0 <= i < k < |s|
      ensures s[i] != s[k]
    {
      if i < |a| <= k {
        assert s[i] == a[i] && a[i] in a && s[k] == b[k - |a|] && b[k - |a|] in b;
      }
    }
  }

  /** The lookup in `flatten`: a missing bitmap or a missing bit counts as unset. */
  predicate BitSet(remote: seq<Bits>, id: FileId, c: nat) {
    id < |remote| && c < |remote[id]| && remote[id][c]
  }

  function FileTasks(remote: seq<Bits>, id: FileId, k: nat): seq<Task> {
    if k == 0 then [] else FileTasks(remote, id, k - 1) + (if BitSet(remote, id, k - 1) then [] else [(id, k - 1)])
  }

  function Flat(sessions: Sessions, order: seq<FileId>, remote: seq<Bits>): seq<Task>
    requires Usable(sessions) && forall id :: id in order ==> id in sessions
  {
    if order == [] then []
    else
      var last := |order| - 1;
      Flat(sessions, order[..last], remote) + FileTasks(remote, order[last], sessions[order[last]].NumChunks())
  }

  method Flatten(sessions: Sessions, order: seq<FileId>, remote: seq<Bits>) returns (arr: seq<Task>)
    requires Usable(sessions) && Enumerates(order, sessions.Keys)
    ensures arr == Flat(sessions, order, remote)
    ensures forall t: Task :: t in arr <==>
              && t.0 in sessions && t.1 < sessions[t.0].NumChunks()
              && !(t.0 < |remote| && t.1 < |remote[t.0]| && remote[t.0][t.1])
    ensures NoDup(arr)
  {
    arr := [];
    for i := 0 to |order|
      invariant arr == Flat(sessions, order[..i], remote)
    {
      var id := order[i];
      ghost var before := arr;
      for c := 0 to sessions[id].NumChunks()
        invariant arr == before + FileTasks(remote, id, c)
      {
        if BitSet(remote, id, c) {
          continue;
        }
        arr := arr + [(id, c)];
      }
      assert order[..i + 1][..i] == order[..i];
    }
    assert order[..|order|] == order;
    FlatExact(sessions, order, remote);
  }

  lemma {:induction false} FileTasksExact(remote: seq<Bits>, id: FileId, k: nat)
    ensures forall t: Task :: t in FileTasks(remote, id, k) <==> t.0 == id && t.1 < k && !BitSet(remote, id, t.1)
    ensures NoDup(FileTasks(remote, id, k))
  {
    if k > 0 {
      FileTasksExact(remote, id, k - 1);
      if !BitSet(remote, id, k - 1) {
        NoDupConcat(FileTasks(remote, id, k - 1), [(id, k - 1)]);
      }
    }
  }

  /** `flatten` leaves out exactly the chunks whose bit is there and set, and holds every other once, in any order. */
  lemma {:induction false} FlatExact(sessions: Sessions, order: seq<FileId>, remote: seq<Bits>)
    requires Usable(sessions) && forall id :: id in order ==> id in sessions
    requires NoDup(order)
    ensures forall t: Task :: t in Flat(sessions, order, remote) <==>
              && t.0 in order && t.1 < sessions[t.0].NumChunks()
              && !(t.0 < |remote| && t.1 < |remote[t.0]| && remote[t.0][t.1])
    ensures NoDup(Flat(sessions, order, remote))
  {
    if order != [] {
      var last := |order| - 1;
      var id, rest := order[last], order[..last];
      FlatExact(sessions, rest, remote);
      FileTasksExact(remote, id, sessions[id].NumChunks());
      assert order == rest + [id] && id !in rest;
      NoDupConcat(Flat(sessions, rest, remote), FileTasks(remote, id, sessions[id].NumChunks()));
    }
  }

  /** So a receiver that has nothing is asked for every chunk of every session, whatever the ids. */
  lemma {:induction false} FreshAsksAll(sessions: Sessions, order: seq<FileId>, remote: seq<Bits>)
    requires Usable(sessions) && Enumerates(order, sessions.Keys)
    requires forall p, c :: 0 <= p < |remote| && 0 <= c < |remote[p]| ==> !remote[p][c]
    ensures forall t: Task :: t in Flat(sessions, order, remote) <==> t.0 in sessions && t.1 < sessions[t.0].NumChunks()
  {
    FlatExact(sessions, order, remote);
  }

  /** `get_remaining_bytes` */
  function TaskBytes(sessions: Sessions, tasks: seq<Task>): nat
    requires Usable(sessions)
  {
    if tasks == [] then 0
    else
      var t := tasks[|tasks| - 1];
      TaskBytes(sessions, tasks[..|tasks| - 1]) + (if t.0 in sessions then sessions[t.0].GetChunkSize(t.1) else 0)
  }

  method GetRemainingBytes(sessions: Sessions, order: seq<FileId>, remote: seq<Bits>) returns (total: nat)
    requires Usable(sessions) && Enumerates(order, sessions.Keys)
    ensures total == TaskBytes(sessions, Flat(sessions, order, remote))
  {
    total := 0;
    var tasks := Flatten(sessions, order, remote);
    for i := 0 to |tasks|
      invariant total == TaskBytes(sessions, tasks[..i])
    {
      if tasks[i].0 in sessions {
        total := total + sessions[tasks[i].0].GetChunkSize(tasks[i].1);
      }
      assert tasks[..i + 1][..i] == tasks[..i];
    }
    assert tasks[..|tasks|] == tasks;
  }

  ghost function SumOver(order: seq<FileId>, f: FileId -> int): int {
    if order == [] then 0 else SumOver(order[..|order| - 1], f) + f(order[|order| - 1])
  }

  ghost function SumBelow(n: nat, f: FileId -> int): int {
    if n == 0 then 0 else SumBelow(n - 1, f) + f(n - 1)
  }

  lemma {:induction false} SumOverAppend(a: seq<FileId>, b: seq<FileId>, f: FileId -> int)
    ensures SumOver(a + b, f) == SumOver(a, f) + SumOver(b, f)
  {
    if b == [] {
      assert a + b == a;
    } else {
      SumOverAppend(a, b[..|b| - 1], f);
      assert (a + b)[..|a + b| - 1] == a + b[..|b| - 1];
    }
  }

  /** A sum over the map does not depend on its iteration order. */
  lemma {:induction false} SumAnyOrder(order: seq<FileId>, n: nat, f: FileId -> int)
    requires Permutes(order, n)
    ensures SumOver(order, f) == SumBelow(n, f)
  {
    EmptyTogether(order, n);
    if n > 0 {
      assert n - 1 in order;
      var k :| 0 <= k < |order| && order[k] == n - 1;
      Without(order, n, k);
      SumAnyOrder(order[..k] + order[k + 1..], n - 1, f);
      SumWithout(order, k, f);
    }
  }

  lemma EmptyTogether(order: seq<FileId>, n: nat)
    requires Permutes(order, n)
    ensures order == [] <==> n == 0
  {
    if order != [] { assert order[0] in order; }
    if n > 0 { assert n - 1 in order; }
  }

  lemma SumWithout(order: seq<FileId>, k: nat, f: FileId -> int)
    requires k < |order|
    ensures SumOver(order, f) == SumOver(order[..k] + order[k + 1..], f) + f(order[k])
  {
    var a, b, x := order[..k], order[k + 1..], [order[k]];
    assert order == a + x + b;
    SumOverAppend(a, b, f);
    SumOverAppend(a + x, b, f);
    SumOverAppend(a, x, f);
    assert x[..0] == [];
  }

  lemma Without(order: seq<FileId>, n: nat, k: nat)
    requires 0 < n && Permutes(order, n) && k < |order| && order[k] == n - 1
    ensures Permutes(order[..k] + order[k + 1..], n - 1)
  {
    var rest := order[..k] + order[k + 1..];
    forall id: FileId
      ensures id in rest <==> id < n - 1
    {
      if id in rest {
        var x :| 0 <= x < |rest| && rest[x] == id;
        var y := if x < k then x else x + 1;
        assert order[y] == id && order[y] in order && order[y] != order[k];
      }
      if id < n - 1 {
        assert id in order;
        var x :| 0 <= x < |order| && order[x] == id;
        assert rest[if x < k then x else x - 1] == id;
      }
    }
  }

  lemma {:induction false} TaskBytesAppend(sessions: Sessions, a: seq<Task>, b: seq<Task>)
    requires Usable(sessions)
    ensures TaskBytes(sessions, a + b) == TaskBytes(sessions, a) + TaskBytes(sessions, b)
  {
    if b == [] {
      assert a + b == a;
    } else {
      TaskBytesAppend(sessions, a, b[..|b| - 1]);
      assert (a + b)[..|a + b| - 1] == a + b[..|b| - 1];
    }
  }

  /** The number of unset bits among the first k. */
  ghost function Unset(bits: Bits, k: nat): nat
    requires k <= |bits|
  {
    if k == 0 then 0 else Unset(bits, k - 1) + (if bits[k - 1] then 0 else 1)
  }

  lemma {:induction false} FileTasksCounts(sessions: Sessions, remote: seq<Bits>, id: FileId, k: nat)
    requires Usable(sessions) && id in sessions && id < |remote|
    requires |remote[id]| == sessions[id].NumChunks() && k <= |remote[id]|
    ensures |FileTasks(remote, id, k)| == Unset(remote[id], k)
    ensures TaskBytes(sessions, FileTasks(remote, id, k)) == LensWhere(sessions[id], remote[id], false, k)
  {
    if k > 0 {
      FileTasksCounts(sessions, remote, id, k - 1);
      ChunkInBounds(sessions[id], k - 1);
      assert BitSet(remote, id, k - 1) == remote[id][k - 1];
      hide Metadata.GetChunkSize, Metadata.Len, Metadata.NumChunks, Metadata.Valid;
      if remote[id][k - 1] {
        assert FileTasks(remote, id, k) == FileTasks(remote, id, k - 1);
      } else {
        TaskBytesAppend(sessions, FileTasks(remote, id, k - 1), [(id, k - 1)]);
        assert [(id, k - 1)][..0] == [];
      }
    }
  }

  /** The receiver sends its bitmaps in `large_files` order; ids and positions agree. */
  ghost predicate Aligned(large: seq<Metadata>) {
    forall i :: 0 <= i < |large| ==> large[i].fileId == i
  }

  ghost predicate Shaped(large: seq<Metadata>, states: seq<Bits>) {
    && |states| == |large|
    && forall i :: 0 <= i < |large| ==> large[i].Valid() && |states[i]| == large[i].NumChunks()
  }

  ghost predicate DistinctIds(large: seq<Metadata>) {
    forall i, k :: 0 <= i < k < |large| ==> large[i].fileId != large[k].fileId
  }

  /** The session map `build` makes of the large files. */
  function SessionsOf(large: seq<Metadata>): Sessions {
    if large == [] then map[] else SessionsOf(large[..|large| - 1])[large[|large| - 1].fileId := large[|large| - 1]]
  }

  lemma {:induction false} SessionsOfIs(large: seq<Metadata>)
    requires DistinctIds(large)
    ensures forall i :: 0 <= i < |large| ==>
              large[i].fileId in SessionsOf(large) && SessionsOf(large)[large[i].fileId] == large[i]
    ensures forall id :: id in SessionsOf(large) ==> exists i :: 0 <= i < |large| && large[i].fileId == id
  {
    if large != [] {
      var init := large[..|large| - 1];
      SessionsOfIs(init);
      forall i | 0 <= i < |large|
        ensures large[i].fileId in SessionsOf(large) && SessionsOf(large)[large[i].fileId] == large[i]
      {
        if i < |init| { assert init[i] == large[i]; }
      }
      forall id | id in SessionsOf(large)
        ensures exists i :: 0 <= i < |large| && large[i].fileId == id
      {
        assert large[|large| - 1] == large[|large| - 1];
        if id != large[|large| - 1].fileId {
          assert id in SessionsOf(init);
          var i :| 0 <= i < |init| && init[i].fileId == id;
          assert large[i].fileId == id;
        }
      }
    }
  }

  lemma AlignedSessions(large: seq<Metadata>, states: seq<Bits>)
    requires Aligned(large) && Shaped(large, states)
    ensures Usable(SessionsOf(large)) && forall id: FileId :: id in SessionsOf(large) <==> id < |large|
    ensures forall i :: 0 <= i < |large| ==> SessionsOf(large)[i] == large[i]
  {
    SessionsOfIs(large);
    forall i | 0 <= i < |large|
      ensures i in SessionsOf(large) && SessionsOf(large)[i] == large[i]
    {
      assert large[i].fileId == i;
    }
  }

  ghost function MissingOf(large: seq<Metadata>, states: seq<Bits>): FileId -> int
    requires Shaped(large, states)
  {
    (i: FileId) => if i < |large| then LensWhere(large[i], states[i], false, |states[i]|) else 0
  }

  ghost function UnsetOf(large: seq<Metadata>, states: seq<Bits>): FileId -> int
    requires Shaped(large, states)
  {
    (i: FileId) => if i < |large| then Unset(states[i], |states[i]|) else 0
  }

  ghost function SizeOf(large: seq<Metadata>): FileId -> int {
    (i: FileId) => if i < |large| then large[i].size else 0
  }

  lemma {:induction false} FlatCounts(large: seq<Metadata>, order: seq<FileId>, states: seq<Bits>)
    requires Aligned(large) && Shaped(large, states) && Usable(SessionsOf(large))
    requires forall id :: id in order ==> id < |large| && id in SessionsOf(large) && SessionsOf(large)[id] == large[id]
    ensures |Flat(SessionsOf(large), order, states)| == SumOver(order, UnsetOf(large, states))
    ensures TaskBytes(SessionsOf(large), Flat(SessionsOf(large), order, states))
         == SumOver(order, MissingOf(large, states))
  {
    if order != [] {
      var last := |order| - 1;
      var id := order[last];
      assert id in order && forall x :: x in order[..last] ==> x in order;
      FlatCounts(large, order[..last], states);
      FileTasksCounts(SessionsOf(large), states, id, |states[id]|);
      TaskBytesAppend(SessionsOf(large), Flat(SessionsOf(large), order[..last], states),
                      FileTasks(states, id, large[id].NumChunks()));
    }
  }

  lemma {:induction false} MissingAtMostSize(large: seq<Metadata>, states: seq<Bits>, n: nat)
    requires Shaped(large, states) && n <= |large|
    ensures 0 <= SumBelow(n, MissingOf(large, states)) <= SumBelow(n, SizeOf(large))
  {
    if n > 0 {
      MissingAtMostSize(large, states, n - 1);
      ConservationWhole(large[n - 1], states[n - 1]);
    }
  }

  /** `get_bytes_done` and the receiver's `total_full_size - total_size`, both with `saturating_sub`. */
  function SaturatingSub(a: nat, b: nat): nat {
    if a < b then 0 else a - b
  }

  /**
   Handshake agreement: with aligned ids and the bitmaps the receiver sent, in any map order, the sender's task
   list is exactly the unset chunks, each once; its length is the number of unset bits; and the bytes both sides
   report as done are the same number, with neither subtraction saturating.
   */
  lemma Agreement(large: seq<Metadata>, states: seq<Bits>, order: seq<FileId>)
    requires Aligned(large) && Shaped(large, states)
    requires Permutes(order, |large|)
    ensures Usable(SessionsOf(large)) && Enumerates(order, SessionsOf(large).Keys)
    ensures var tasks := Flat(SessionsOf(large), order, states);
            && (forall t: Task :: t in tasks <==> t.0 < |large| && t.1 < |states[t.0]| && !states[t.0][t.1])
            && NoDup(tasks)
            && |tasks| == SumBelow(|large|, UnsetOf(large, states))
    ensures var senderRemaining := TaskBytes(SessionsOf(large), Flat(SessionsOf(large), order, states));
            var senderTotal, full := SumOver(order, SizeOf(large)), SumBelow(|large|, SizeOf(large));
            var remaining := SumBelow(|large|, MissingOf(large, states));
            && senderRemaining == remaining && senderTotal == full && 0 <= remaining <= full
            && SaturatingSub(senderTotal, senderRemaining) == SaturatingSub(full, remaining) == full - remaining
  {
    AlignedSessions(large, states);
    FlatExact(SessionsOf(large), order, states);
    FlatCounts(large, order, states);
    SumAnyOrder(order, |large|, UnsetOf(large, states));
    SumAnyOrder(order, |large|, MissingOf(large, states));
    SumAnyOrder(order, |large|, SizeOf(large));
    MissingAtMostSize(large, states, |large|);
  }

  /** The work the receiver's bitmaps really stand for. */
  ghost predicate Missing(large: seq<Metadata>, states: seq<Bits>, t: Task) {
    exists i :: 0 <= i < |large| && i < |states| && large[i].fileId == t.0 && t.1 < |states[i]| && !states[i][t.1]
  }

  ghost predicate Asked(large: seq<Metadata>, order: seq<FileId>, states: seq<Bits>, t: Task)
    requires Usable(SessionsOf(large)) && Enumerates(order, SessionsOf(large).Keys)
  {
    t in Flat(SessionsOf(large), order, states)
  }

  lemma {:induction false} AskedIs(large: seq<Metadata>, order: seq<FileId>, states: seq<Bits>, t: Task)
    requires Usable(SessionsOf(large)) && Enumerates(order, SessionsOf(large).Keys)
    ensures Asked(large, order, states, t) <==>
              && t.0 in SessionsOf(large) && t.1 < SessionsOf(large)[t.0].NumChunks()
              && !(t.0 < |states| && t.1 < |states[t.0]| && states[t.0][t.1])
  {
    FlatExact(SessionsOf(large), order, states);
  }

  function AllOf(n: nat, bit: bool): (bits: Bits)
    ensures |bits| == n && forall c :: 0 <= c < n ==> bits[c] == bit
  {
    seq(n, _ => bit)
  }

  /** Position i's bitmap all set, every other all unset. */
  function OnlySet(large: seq<Metadata>, i: nat): seq<Bits>
    requires forall k :: 0 <= k < |large| ==> large[k].Valid()
  {
    seq(|large|, k requires 0 <= k < |large| && large[k].Valid() => AllOf(large[k].NumChunks(), k == i))
  }

  /** One large file whose id is not its position: a receiver that already has all of it is asked for it again. */
  lemma {:induction false} MisalignedAsks(large: seq<Metadata>, order: seq<FileId>, i: nat)
    requires forall k :: 0 <= k < |large| ==> large[k].Valid() && large[k].size > 0
    requires DistinctIds(large) && Usable(SessionsOf(large)) && Enumerates(order, SessionsOf(large).Keys)
    requires i < |large| && large[i].fileId != i
    ensures Shaped(large, OnlySet(large, i)) && Asked(large, order, OnlySet(large, i), (large[i].fileId, 0))
    ensures !Missing(large, OnlySet(large, i), (large[i].fileId, 0))
  {
    SessionsOfIs(large);
    NumChunksBounds(large[i]);
    var states, t := OnlySet(large, i), (large[i].fileId, 0);
    AskedIs(large, order, states, t);
    hide Asked;
    assert states[i][0];
    forall k | 0 <= k < |large| && large[k].fileId == t.0
      ensures k == i
    {
    }
  }

  /**
   Index alignment is exactly what `flatten` needs: it asks for the missing chunks under all bitmaps if and only
   if every large file's id is its position. (A large file is never empty: `Manifest.Ids`.)
   */
  lemma {:induction false} AlignmentNeeded(large: seq<Metadata>, order: seq<FileId>)
    requires forall i :: 0 <= i < |large| ==> large[i].Valid() && large[i].size > 0
    requires DistinctIds(large) && Enumerates(order, SessionsOf(large).Keys)
    ensures Usable(SessionsOf(large))
    ensures Aligned(large) <==>
              forall states: seq<Bits>, t: Task :: Shaped(large, states) ==>
                (Asked(large, order, states, t) <==> Missing(large, states, t))
  {
    SessionsOfIs(large);
    forall id | id in SessionsOf(large)
      ensures SessionsOf(large)[id].Valid()
    {
      var i :| 0 <= i < |large| && large[i].fileId == id;
    }
    if Aligned(large) {
      forall states: seq<Bits>, t: Task | Shaped(large, states)
        ensures Asked(large, order, states, t) <==> Missing(large, states, t)
      {
        AlignedSessions(large, states);
        AskedIs(large, order, states, t);
        hide Asked;
      }
    } else {
      var i :| 0 <= i < |large| && large[i].fileId != i;
      MisalignedAsks(large, order, i);
      hide Shaped, Asked, Missing, OnlySet;
      var states, t := OnlySet(large, i), (large[i].fileId, 0);
      assert Shaped(large, states) && Asked(large, order, states, t) && !Missing(large, states, t);
    }
  }
}
