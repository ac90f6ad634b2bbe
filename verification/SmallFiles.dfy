/**
 Small files from the handshake to disk: the small-file loop of `parse` (crates/core/src/protocol/manifest.rs),
 the sender's selection and parallel readers (crates/core/src/net/send.rs, crates/core/src/disk/reader.rs), the
 stream, and `write_small_files_to_disk` (crates/core/src/disk/writer.rs). The store maps final paths to files.
 */
module SmallFiles {
  import opened Wrappers
  import opened Chunks
  import opened Disk
  import opened CrashSafety
  import opened Handshake
  import opened Framing

  type Store = map<Bytes, File>

  /** `path` is the sender's relative path; `resolved` is what `rewrite_relative_path` makes of it. */
  datatype SmallFile = SmallFile(path: Bytes, resolved: Bytes, size: nat, modified: nat)

  predicate Skips(mode: Mode, f: SmallFile, store: Store) {
    match mode
    case Unique => f.resolved in store
    case Overwrite => false
    case Sync =>
      && f.resolved in store && |store[f.resolved].data| == f.size && store[f.resolved].mtime == f.modified
  }

  function ParsedSmall(mode: Mode, files: seq<SmallFile>, store: Store, now: nat): (r: (seq<bool>, Store))
    ensures |r.0| == |files|
  {
    if files == [] then ([], store)
    else
      var last := |files| - 1;
      var (bits, before) := ParsedSmall(mode, files[..last], store, now);
      var f := files[last];
      if f.size == 0 && !Skips(mode, f, before) then (bits + [true], before[f.resolved := File([], now)])
      else (bits + [Skips(mode, f, before)], before)
  }

  method ParseSmallFiles(mode: Mode, files: seq<SmallFile>, store: Store, now: nat)
    returns (bits: seq<bool>, after: Store)
    ensures (bits, after) == ParsedSmall(mode, files, store, now)
  {
    bits, after := [], store;
    for i := 0 to |files|
      invariant (bits, after) == ParsedSmall(mode, files[..i], store, now)
    {
      assert files[..i + 1][..i] == files[..i];
      var shouldSkip := Skips(mode, files[i], after);
      if files[i].size == 0 && !shouldSkip {
        after := after[files[i].resolved := File([], now)];
        bits := bits + [true];
        continue;
      }
      bits := bits + [shouldSkip];
    }
    assert files[..|files|] == files;
  }

  ghost predicate DistinctPaths(files: seq<SmallFile>) {
    forall i, k :: 0 <= i < k < |files| ==> files[i].resolved != files[k].resolved
  }

  /** What each mode takes for the finished file: anything in Unique mode, nothing in Overwrite, a twin in Sync. */
  ghost predicate TakenForDone(mode: Mode, f: SmallFile, store: Store) {
    && (mode == Overwrite ==> false)
    && f.resolved in store
    && (mode == Sync ==> |store[f.resolved].data| == f.size && store[f.resolved].mtime == f.modified)
  }

  /**
   One bit a file, in manifest order. In Overwrite mode it is set exactly for an empty file; in Unique mode also for one
   whose path exists, in Sync mode for one with a file of its length and time there. An empty file not skipped is
   created at once.
   */
  lemma {:induction false} ParsedSmallIs(mode: Mode, files: seq<SmallFile>, store: Store, now: nat, i: nat)
    requires DistinctPaths(files) && i < |files|
    ensures var (bits, after, f) := (ParsedSmall(mode, files, store, now).0, ParsedSmall(mode, files, store, now).1,
                                     files[i]);
            && (mode == Overwrite ==> (bits[i] <==> f.size == 0))
            && (mode == Unique ==> (bits[i] <==> f.resolved in store || f.size == 0))
            && (mode == Sync ==>
                  (bits[i] <==>
                     || f.size == 0
                     || (f.resolved in store && |store[f.resolved].data| == f.size
                         && store[f.resolved].mtime == f.modified)))
            && (if f.size == 0 && !TakenForDone(mode, f, store)
                then f.resolved in after && after[f.resolved] == File([], now)
                else Untouched(store, after, f.resolved))
            && (TakenForDone(mode, f, store) <==> Skips(mode, f, store))
  {
    var last := |files| - 1;
    var (bits, before) := ParsedSmall(mode, files[..last], store, now);
    if i < last {
      ParsedSmallIs(mode, files[..last], store, now, i);
    } else {
      ParsedSmallFrame(mode, files[..last], store, now, files[last].resolved);
    }
  }

  ghost predicate Untouched(a: Store, b: Store, p: Bytes) {
    (p in a <==> p in b) && (p in a ==> a[p] == b[p])
  }

  lemma {:induction false} ParsedSmallFrame(mode: Mode, files: seq<SmallFile>, store: Store, now: nat, p: Bytes)
    requires forall i :: 0 <= i < |files| ==> files[i].resolved != p
    ensures Untouched(store, ParsedSmall(mode, files, store, now).1, p)
  {
    if files != [] {
      ParsedSmallFrame(mode, files[..|files| - 1], store, now, p);
    }
  }

  /** The places of the unset bits, in order: what the sender counts and sends. */
  function Wanted(bits: seq<bool>): seq<nat> {
    if bits == [] then []
    else Wanted(bits[..|bits| - 1]) + (if bits[|bits| - 1] then [] else [|bits| - 1])
  }

  lemma {:induction false} WantedIs(bits: seq<bool>)
    ensures forall i: nat :: i in Wanted(bits) <==> i < |bits| && !bits[i]
    ensures NoDup(Wanted(bits))
  {
    if bits != [] {
      var last := |bits| - 1;
      WantedIs(bits[..last]);
      if !bits[last] { NoDupConcat(Wanted(bits[..last]), [last]); }
    }
  }

  /** The record of a file with the bytes the reader found on disk. */
  function RecordOf(f: SmallFile, data: Bytes): Record {
    Record(f.path, f.modified, f.size, data)
  }

  function RecordsOf(files: seq<SmallFile>, data: seq<Bytes>, arrivals: seq<nat>): (rs: seq<Record>)
    requires |data| == |files| && forall i :: i in arrivals ==> i < |files|
    ensures |rs| == |arrivals|
  {
    seq(|arrivals|, k requires 0 <= k < |arrivals| =>
      assert arrivals[k] in arrivals; RecordOf(files[arrivals[k]], data[arrivals[k]]))
  }

  /** `write_small_files_to_disk`; setting the mtime may fail and leave the clock's. */
  function Stored(payloads: seq<Payload>, store: Store, now: nat, touched: nat -> bool): Store {
    if payloads == [] then store
    else
      var last := |payloads| - 1;
      var p := payloads[last];
      Stored(payloads[..last], store, now, touched)[p.path := File(p.data, if touched(last) then p.modified else now)]
  }

  method WriteSmallFilesToDisk(payloads: seq<Payload>, store: Store, now: nat, touched: nat -> bool)
    returns (after: Store)
    ensures after == Stored(payloads, store, now, touched)
  {
    after := store;
    for i := 0 to |payloads|
      invariant after == Stored(payloads[..i], store, now, touched)
    {
      assert payloads[..i + 1][..i] == payloads[..i];
      after := after[payloads[i].path := File(payloads[i].data, now)];
      if touched(i) {
        after := after[payloads[i].path := after[payloads[i].path].(mtime := payloads[i].modified)];
      }
    }
    assert payloads[..|payloads|] == payloads;
  }

  lemma {:induction false} StoredFrame(payloads: seq<Payload>, store: Store, now: nat, touched: nat -> bool, p: Bytes)
    requires forall k :: 0 <= k < |payloads| ==> payloads[k].path != p
    ensures Untouched(store, Stored(payloads, store, now, touched), p)
  {
    if payloads != [] { StoredFrame(payloads[..|payloads| - 1], store, now, touched, p); }
  }

  /** The last payload under a path is what stays there. */
  lemma {:induction false} StoredHolds(payloads: seq<Payload>, store: Store, now: nat, touched: nat -> bool, k: nat)
    requires k < |payloads| && forall x :: k < x < |payloads| ==> payloads[x].path != payloads[k].path
    ensures var after, p := Stored(payloads, store, now, touched), payloads[k];
            p.path in after && after[p.path] == File(p.data, if touched(k) then p.modified else now)
  {
    var last := |payloads| - 1;
    if k < last {
      assert payloads[last].path != payloads[k].path;
      StoredHolds(payloads[..last], store, now, touched, k);
    }
  }

  ghost function SetOf(a: seq<nat>): set<nat> {
    if a == [] then {} else SetOf(a[..|a| - 1]) + {a[|a| - 1]}
  }

  lemma {:induction false} SetOfIs(a: seq<nat>)
    ensures forall x :: x in SetOf(a) <==> x in a
    ensures NoDup(a) ==> |SetOf(a)| == |a|
  {
    if a != [] {
      var rest, last := a[..|a| - 1], a[|a| - 1];
      SetOfIs(rest);
      assert a == rest + [last];
      if NoDup(a) { assert last !in rest; }
    }
  }

  /** Distinct places, as many as there are: all of them. */
  lemma Pigeonhole(a: seq<nat>, b: seq<nat>)
    requires NoDup(a) && NoDup(b) && (forall x :: x in a ==> x in b) && |a| >= |b|
    ensures |a| == |b| && forall x :: x in b ==> x in a
  {
    SetOfIs(a);
    SetOfIs(b);
    var s, t := SetOf(a), SetOf(b);
    Subset(s, t);
    forall x | x in t
      ensures x in s
    {
      if x !in s { Subset(s, t - {x}); }
    }
  }

  lemma PayloadAt(files: seq<SmallFile>, data: seq<Bytes>, arrivals: seq<nat>, k: nat)
    requires |data| == |files| && (forall i :: i in arrivals ==> i < |files|) && k < |arrivals|
    ensures arrivals[k] in arrivals
    ensures SentAll(RecordsOf(files, data, arrivals))[k]
         == Payload(files[arrivals[k]].path, files[arrivals[k]].modified, data[arrivals[k]])
  {
    assert arrivals[k] in arrivals;
  }

  /** What the sender puts on the stream comes back if and only if every file still has the size of the manifest. */
  lemma {:induction false} SizesMustHold(files: seq<SmallFile>, data: seq<Bytes>, arrivals: seq<nat>)
    requires |data| == |files| && (forall i :: i in arrivals ==> i < |files|)
    requires forall i :: 0 <= i < |files| ==> RecordOf(files[i], data[i]).Valid()
    ensures var records := RecordsOf(files, data, arrivals);
            ReadAll(EncodeAll(records), |records|) == (SentAll(records), true) <==>
              forall k :: 0 <= k < |arrivals| ==>
                arrivals[k] in arrivals && |data[arrivals[k]]| == files[arrivals[k]].size
  {
    var records := RecordsOf(files, data, arrivals);
    forall k | 0 <= k < |records|
      ensures arrivals[k] in arrivals && records[k].Valid()
      ensures records[k].WellSized() <==> |data[arrivals[k]]| == files[arrivals[k]].size
    {
      assert arrivals[k] in arrivals;
    }
    RoundTrip(records);
    hide ReadAll, EncodeAll, SentAll;
  }

  ghost predicate DistinctSent(files: seq<SmallFile>) {
    forall i, k :: 0 <= i < k < |files| ==> files[i].path != files[k].path
  }

  ghost predicate Holds(store: Store, p: Bytes, data: Bytes) {
    p in store && store[p].data == data
  }

  /** File k is wanted, and travels under path p. */
  ghost predicate SentAs(files: seq<SmallFile>, bits: seq<bool>, p: Bytes, k: nat) {
    k < |files| && k < |bits| && !bits[k] && files[k].path == p
  }

  /** The n-th arrival is the last one under path p. */
  ghost predicate LastAt(files: seq<SmallFile>, arrivals: seq<nat>, p: Bytes, n: nat) {
    && n < |arrivals| && arrivals[n] < |files| && files[arrivals[n]].path == p
    && forall m :: n < m < |arrivals| && arrivals[m] < |files| ==> files[arrivals[m]].path != p
  }

  lemma {:induction false} SomeLast(files: seq<SmallFile>, arrivals: seq<nat>, p: Bytes, n: nat)
    requires n < |arrivals| && arrivals[n] < |files| && files[arrivals[n]].path == p
    ensures exists m: nat :: LastAt(files, arrivals, p, m)
    decreases |arrivals| - n
  {
    if m :| n < m < |arrivals| && arrivals[m] < |files| && files[arrivals[m]].path == p {
      SomeLast(files, arrivals, p, m);
    } else {
      assert LastAt(files, arrivals, p, n);
    }
  }

  /** What is at path p once the arrivals are stored: the last one sent under it, or what was there. */
  ghost predicate Outcome(files: seq<SmallFile>, data: seq<Bytes>, arrivals: seq<nat>, parsed: Store, after: Store,
                          p: Bytes)
    requires |data| == |files|
  {
    && (forall n: nat :: LastAt(files, arrivals, p, n) ==> Holds(after, p, data[arrivals[n]]))
    && ((forall n: nat :: !LastAt(files, arrivals, p, n)) ==> Untouched(parsed, after, p))
  }

  lemma StoredAt(files: seq<SmallFile>, data: seq<Bytes>, parsed: Store, now: nat, arrivals: seq<nat>,
                 touched: nat -> bool, p: Bytes)
    requires |data| == |files| && forall k :: k in arrivals ==> k < |files|
    ensures var after := Stored(SentAll(RecordsOf(files, data, arrivals)), parsed, now, touched);
            Outcome(files, data, arrivals, parsed, after, p)
  {
    var payloads := SentAll(RecordsOf(files, data, arrivals));
    forall n | 0 <= n < |payloads|
      ensures arrivals[n] < |files| && payloads[n].path == files[arrivals[n]].path
      ensures payloads[n].data == data[arrivals[n]]
    {
      PayloadAt(files, data, arrivals, n);
    }
    hide SentAll, RecordsOf, Stored;
    if n: nat :| LastAt(files, arrivals, p, n) {
      StoredHolds(payloads, parsed, now, touched, n);
    } else {
      forall n | 0 <= n < |payloads|
        ensures payloads[n].path != p
      {
        if payloads[n].path == p { SomeLast(files, arrivals, p, n); }
      }
      StoredFrame(payloads, parsed, now, touched, p);
    }
  }

  /** The arrivals are the wanted files, once each. */
  ghost predicate AllArrived(bits: seq<bool>, arrivals: seq<nat>) {
    NoDup(arrivals) && forall k: nat :: k in arrivals <==> k < |bits| && !bits[k]
  }

  /**
   Small-file accounting. The readers may finish in any order and drop files they cannot read; the stream may be cut
   anywhere. If the receiver still reads all records it was told of, then every wanted file has arrived, and at any path
   there is the last file sent under it, or if none was, what the handshake left there.
   */
  lemma SmallFilesArrive(mode: Mode, files: seq<SmallFile>, data: seq<Bytes>, before: Store, now: nat,
                         arrivals: seq<nat>, cut: nat, touched: nat -> bool)
    requires |data| == |files| < U64
    requires forall i :: 0 <= i < |files| ==> RecordOf(files[i], data[i]).Valid() && |data[i]| == files[i].size
    requires NoDup(arrivals) && forall i :: i in arrivals ==> i in Wanted(ParsedSmall(mode, files, before, now).0)
    requires forall i :: i in arrivals ==> i < |files|
    requires var wanted := Wanted(ParsedSmall(mode, files, before, now).0);
             8 <= cut <= |Announced(|wanted|, RecordsOf(files, data, arrivals))|
    ensures var (bits, parsed) := ParsedSmall(mode, files, before, now);
            var stream := Announced(|Wanted(bits)|, RecordsOf(files, data, arrivals))[..cut];
            var (payloads, ok) := ReadStream(stream);
            ok ==>
              && AllArrived(bits, arrivals) && payloads == SentAll(RecordsOf(files, data, arrivals))
              && forall p: Bytes :: Outcome(files, data, arrivals, parsed, Stored(payloads, parsed, now, touched), p)
  {
    var (bits, parsed) := ParsedSmall(mode, files, before, now);
    var records := RecordsOf(files, data, arrivals);
    var (payloads, ok) := ReadStream(Announced(|Wanted(bits)|, records)[..cut]);
    forall k | 0 <= k < |records|
      ensures records[k].Valid() && records[k].WellSized()
    {
      assert arrivals[k] in arrivals;
    }
    WantedIs(bits);
    WantedFits(bits);
    CutAnywhere(|Wanted(bits)|, records, cut);
    if ok {
      Pigeonhole(arrivals, Wanted(bits));
      assert payloads == SentAll(records);
      hide ReadStream, ParsedSmall, Stored, SentAll, Announced, Wanted, Outcome;
      forall p: Bytes
        ensures Outcome(files, data, arrivals, parsed, Stored(payloads, parsed, now, touched), p)
      {
        StoredAt(files, data, parsed, now, arrivals, touched, p);
      }
    }
  }

  lemma {:induction false} WantedFits(bits: seq<bool>)
    ensures |Wanted(bits)| <= |bits|
  {
    if bits != [] { WantedFits(bits[..|bits| - 1]); }
  }

  /** With distinct sent paths, some arrival is the last under p if and only if a wanted file is sent under p. */
  lemma OnlySent(files: seq<SmallFile>, bits: seq<bool>, arrivals: seq<nat>, p: Bytes)
    requires DistinctSent(files) && |bits| == |files| && AllArrived(bits, arrivals)
    ensures forall n: nat :: LastAt(files, arrivals, p, n) ==> SentAs(files, bits, p, arrivals[n])
    ensures forall k: nat ::
              SentAs(files, bits, p, k) ==> exists n: nat :: LastAt(files, arrivals, p, n) && arrivals[n] == k
  {
    forall n: nat | LastAt(files, arrivals, p, n)
      ensures SentAs(files, bits, p, arrivals[n])
    {
      assert arrivals[n] in arrivals;
    }
    forall k: nat | SentAs(files, bits, p, k)
      ensures exists n: nat :: LastAt(files, arrivals, p, n) && arrivals[n] == k
    {
      assert k in arrivals;
      var n :| 0 <= n < |arrivals| && arrivals[n] == k;
      assert LastAt(files, arrivals, p, n);
    }
  }

  /**
   A wanted small file is at the path it was resolved to if and only if the last file sent under that very path has its
   bytes, or none was and they were there already. So of two selections of one name the one that arrives later survives,
   and the other if and only if it has the same bytes. Where no two files are sent under one path, it takes a file of
   its bytes sent under the resolved path, as it is itself when not renamed.
   */
  lemma DeliveredIff(files: seq<SmallFile>, data: seq<Bytes>, bits: seq<bool>, arrivals: seq<nat>, parsed: Store,
                     after: Store, i: nat)
    requires |data| == |files| == |bits| && AllArrived(bits, arrivals) && i < |files| && !bits[i]
    requires Outcome(files, data, arrivals, parsed, after, files[i].resolved)
    ensures var p := files[i].resolved;
            Holds(after, p, data[i]) <==>
              || (exists n: nat :: LastAt(files, arrivals, p, n) && data[arrivals[n]] == data[i])
              || ((forall n: nat :: !LastAt(files, arrivals, p, n)) && Holds(parsed, p, data[i]))
    ensures var p := files[i].resolved;
            DistinctSent(files) ==>
              && (Holds(after, p, data[i]) <==>
                    || (exists k: nat :: SentAs(files, bits, p, k) && data[k] == data[i])
                    || ((forall k: nat :: !SentAs(files, bits, p, k)) && Holds(parsed, p, data[i])))
              && (p == files[i].path ==> Holds(after, p, data[i]))
  {
    var p := files[i].resolved;
    OneLast(files, arrivals, p);
    if DistinctSent(files) {
      OnlySent(files, bits, arrivals, p);
      if p == files[i].path { assert SentAs(files, bits, p, i); }
    }
    hide LastAt, SentAs, DistinctSent;
  }

  lemma OneLast(files: seq<SmallFile>, arrivals: seq<nat>, p: Bytes)
    ensures forall n: nat, m: nat :: LastAt(files, arrivals, p, n) && LastAt(files, arrivals, p, m) ==> n == m
  {
  }

  /** The handshake of Unique mode leaves every existing file alone, and wants only files with a free resolved path. */
  lemma {:induction false} UniqueParse(files: seq<SmallFile>, before: Store, now: nat)
    ensures var (bits, parsed) := ParsedSmall(Unique, files, before, now);
            && (forall p :: p in before ==> p in parsed && parsed[p] == before[p])
            && (forall i :: 0 <= i < |files| && !bits[i] ==> files[i].resolved !in before)
  {
    if files != [] {
      UniqueParse(files[..|files| - 1], before, now);
    }
  }

  /** No file that was there has other bytes now. */
  ghost predicate NothingOverwritten(before: Store, after: Store) {
    forall p :: p in before ==> Holds(after, p, before[p].data)
  }

  /**
   "Never overwrites" on the store: in Unique mode the small files of a transfer leave every existing file as it was if
   and only if no wanted file is sent under the path of an existing file of other bytes. Such a file is always a renamed
   one: it is its resolved path that the handshake found free, and its original path that it is stored under.
   */
  lemma OverwritesIff(files: seq<SmallFile>, data: seq<Bytes>, before: Store, now: nat, arrivals: seq<nat>,
                      after: Store)
    requires |data| == |files| && AllArrived(ParsedSmall(Unique, files, before, now).0, arrivals)
    requires var parsed := ParsedSmall(Unique, files, before, now).1;
             forall p: Bytes :: Outcome(files, data, arrivals, parsed, after, p)
    ensures NothingOverwritten(before, after) <==>
              forall p: Bytes, n: nat ::
                p in before && LastAt(files, arrivals, p, n) ==> before[p].data == data[arrivals[n]]
    ensures var bits := ParsedSmall(Unique, files, before, now).0;
            DistinctSent(files) ==>
              (NothingOverwritten(before, after) <==>
                 forall k: nat :: k < |files| && !bits[k] && files[k].path in before ==>
                   before[files[k].path].data == data[k])
    ensures forall k :: 0 <= k < |files| && !ParsedSmall(Unique, files, before, now).0[k] && files[k].path in before ==>
              files[k].resolved != files[k].path
  {
    var (bits, parsed) := ParsedSmall(Unique, files, before, now);
    UniqueParse(files, before, now);
    hide ParsedSmall;
    forall p | p in before
      ensures Holds(after, p, before[p].data) <==>
                forall n: nat :: LastAt(files, arrivals, p, n) ==> before[p].data == data[arrivals[n]]
    {
      OneLast(files, arrivals, p);
      assert Outcome(files, data, arrivals, parsed, after, p);
      hide LastAt;
    }
    if DistinctSent(files) {
      forall p | p in before
        ensures (forall n: nat :: LastAt(files, arrivals, p, n) ==> before[p].data == data[arrivals[n]]) <==>
                forall k: nat :: SentAs(files, bits, p, k) ==> before[p].data == data[k]
      {
        OnlySent(files, bits, arrivals, p);
        hide LastAt, SentAs;
      }
      hide LastAt, Outcome;
      forall k: nat | k < |files| && !bits[k] && files[k].path in before
        ensures SentAs(files, bits, files[k].path, k)
      {
      }
    }
    hide LastAt, Outcome, SentAs;
  }

  /**
   A folder "P" with a file "x" is there, and a folder "P" with another "x" is sent. The target is renamed to "P (1)",
   and "P (1)/x" is free, but the file is stored as "P/x", over the one that was there.
   */
  lemma RenamedOverwrites(now: nat, touched: nat -> bool)
    ensures var path, resolved := [80, 47, 120], [80, 32, 40, 49, 41, 47, 120];
            var files, data := [SmallFile(path, resolved, 1, 0)], [[2]];
            var before: Store := map[path := File([1], 0)];
            var (bits, parsed) := ParsedSmall(Unique, files, before, now);
            && !bits[0] && Stored(SentAll(RecordsOf(files, data, [0])), parsed, now, touched)[path].data == [2]
  {
    var path, resolved := [80, 47, 120], [80, 32, 40, 49, 41, 47, 120];
    var files, data := [SmallFile(path, resolved, 1, 0)], [[2]];
    var before: Store := map[path := File([1], 0)];
    assert files[..0] == [] && |path| != |resolved|;
    var (bits, parsed) := ParsedSmall(Unique, files, before, now);
    PayloadAt(files, data, [0], 0);
    StoredHolds(SentAll(RecordsOf(files, data, [0])), parsed, now, touched, 0);
  }

  /** A round of small files that was broken off: so many stored whole, and maybe the next one up to some byte. */
  datatype Round = Round(arrivals: seq<nat>, stored: nat, torn: Option<nat>, now: nat, touched: nat -> bool)

  ghost predicate Possible(mode: Mode, files: seq<SmallFile>, data: seq<Bytes>, before: Store, r: Round) {
    && |data| == |files| && NoDup(r.arrivals)
    && (forall k :: k in r.arrivals ==> k < |files| && !ParsedSmall(mode, files, before, r.now).0[k])
    && r.stored <= |r.arrivals|
    && (r.torn.Some? ==>
          && r.stored < |r.arrivals| && r.arrivals[r.stored] in r.arrivals
          && r.torn.value <= |data[r.arrivals[r.stored]]|)
  }

  /** Every wanted file has been stored whole. */
  ghost predicate AllStored(mode: Mode, files: seq<SmallFile>, data: seq<Bytes>, before: Store, r: Round)
    requires Possible(mode, files, data, before, r)
  {
    && r.stored == |r.arrivals| && r.torn == None
    && forall k: nat :: k < |files| && !ParsedSmall(mode, files, before, r.now).0[k] ==> k in r.arrivals
  }

  function RoundEnd(mode: Mode, files: seq<SmallFile>, data: seq<Bytes>, before: Store, r: Round): Store
    requires Possible(mode, files, data, before, r)
  {
    var payloads := SentAll(RecordsOf(files, data, r.arrivals));
    var store := Stored(payloads[..r.stored], ParsedSmall(mode, files, before, r.now).1, r.now, r.touched);
    if r.torn.None? then store
    else
      var next := payloads[r.stored];
      assert r.arrivals[r.stored] in r.arrivals;
      store[next.path := File(next.data[..r.torn.value], r.now)]
  }

  /** A file that would be skipped holds the sent bytes. */
  ghost predicate Right(mode: Mode, f: SmallFile, data: Bytes, store: Store) {
    TakenForDone(mode, f, store) ==> Holds(store, f.resolved, data)
  }

  /** The file whose write was broken off. */
  ghost predicate TornAt(r: Round, i: nat, k: nat) {
    r.torn == Some(k) && r.stored < |r.arrivals| && r.arrivals[r.stored] == i
  }

  lemma PayloadsOf(files: seq<SmallFile>, data: seq<Bytes>, arrivals: seq<nat>, i: nat)
    requires DistinctSent(files) && |data| == |files| && (forall k :: k in arrivals ==> k < |files|) && i < |files|
    ensures var payloads := SentAll(RecordsOf(files, data, arrivals));
            forall n :: 0 <= n < |arrivals| ==>
              && arrivals[n] in arrivals && payloads[n].data == data[arrivals[n]]
              && payloads[n].path == files[arrivals[n]].path && payloads[n].modified == files[arrivals[n]].modified
              && (payloads[n].path == files[i].path <==> arrivals[n] == i)
  {
    forall n | 0 <= n < |arrivals|
      ensures arrivals[n] in arrivals
      ensures SentAll(RecordsOf(files, data, arrivals))[n]
           == Payload(files[arrivals[n]].path, files[arrivals[n]].modified, data[arrivals[n]])
    {
      PayloadAt(files, data, arrivals, n);
    }
    hide SentAll, RecordsOf;
  }

  /** File i has got the sender's modification time, if setting it worked. */
  ghost predicate Timed(files: seq<SmallFile>, arrivals: seq<nat>, touched: nat -> bool, after: Store, i: nat)
    requires i < |files|
  {
    forall n :: 0 <= n < |arrivals| && arrivals[n] == i && touched(n) ==>
      files[i].path in after && after[files[i].path].mtime == files[i].modified
  }

  /** The first m arrivals stored: file i holds its bytes if it is among them, and is untouched if not. */
  lemma {:induction false} StoredSome(files: seq<SmallFile>, data: seq<Bytes>, parsed: Store, now: nat,
                                      arrivals: seq<nat>, touched: nat -> bool, m: nat, i: nat)
    requires DistinctSent(files) && |data| == |files| && (forall k :: k in arrivals ==> k < |files|) && i < |files|
    requires NoDup(arrivals) && m <= |arrivals|
    ensures var after := Stored(SentAll(RecordsOf(files, data, arrivals))[..m], parsed, now, touched);
            && Timed(files, arrivals[..m], touched, after, i)
            && (if i in arrivals[..m] then Holds(after, files[i].path, data[i])
                else Untouched(parsed, after, files[i].path))
  {
    var payloads := SentAll(RecordsOf(files, data, arrivals))[..m];
    PayloadsOf(files, data, arrivals, i);
    hide SentAll, RecordsOf, Stored;
    if i in arrivals[..m] {
      var n :| 0 <= n < m && arrivals[n] == i;
      StoredHolds(payloads, parsed, now, touched, n);
      assert forall o :: 0 <= o < m && arrivals[..m][o] == i ==> o == n;
    } else {
      forall n | 0 <= n < m
        ensures payloads[n].path != files[i].path
      {
        assert arrivals[..m][n] == arrivals[n];
      }
      StoredFrame(payloads, parsed, now, touched, files[i].path);
    }
  }

  lemma RoundAt(mode: Mode, files: seq<SmallFile>, data: seq<Bytes>, before: Store, r: Round, i: nat)
    requires DistinctSent(files) && Possible(mode, files, data, before, r) && i < |files|
    ensures var parsed, after := ParsedSmall(mode, files, before, r.now).1, RoundEnd(mode, files, data, before, r);
            var p := files[i].path;
            if r.torn.Some? && TornAt(r, i, r.torn.value) then
              p in after && after[p] == File(data[i][..r.torn.value], r.now)
            else if i in r.arrivals[..r.stored] then
              Holds(after, p, data[i]) && Timed(files, r.arrivals[..r.stored], r.touched, after, i)
            else Untouched(parsed, after, p)
  {
    StoredSome(files, data, ParsedSmall(mode, files, before, r.now).1, r.now, r.arrivals, r.touched, r.stored, i);
    PayloadsOf(files, data, r.arrivals, i);
    hide SentAll, RecordsOf, Stored, ParsedSmall, NoDup, DistinctSent;
  }

  /**
   A round broken off anywhere keeps a small file right, if and only if it was not, in Unique mode, broken off inside
   the write of that file: the next handshake would skip a short file because it exists.
   */
  lemma RoundKeeps(mode: Mode, files: seq<SmallFile>, data: seq<Bytes>, before: Store, r: Round, i: nat)
    requires DistinctPaths(files) && DistinctSent(files) && Possible(mode, files, data, before, r) && i < |files|
    requires files[i].resolved == files[i].path && |data[i]| == files[i].size
    requires Right(mode, files[i], data[i], before)
    ensures Right(mode, files[i], data[i], RoundEnd(mode, files, data, before, r)) <==>
              !(mode == Unique && exists k: nat :: TornAt(r, i, k) && k < files[i].size)
    ensures AllStored(mode, files, data, before, r) ==>
              Holds(RoundEnd(mode, files, data, before, r), files[i].path, data[i])
  {
    RoundAt(mode, files, data, before, r, i);
    ParsedSmallIs(mode, files, before, r.now, i);
    hide RoundEnd, ParsedSmall;
    assert r.arrivals[..|r.arrivals|] == r.arrivals;
    if r.torn.Some? && TornAt(r, i, r.torn.value) {
      assert r.arrivals[r.stored] in r.arrivals;
      assert r.torn.value == files[i].size ==> data[i][..r.torn.value] == data[i];
    }
  }

  /** In Overwrite mode a full round sends every file that is not empty, whatever was there. */
  lemma {:induction false} OverwriteDelivers(files: seq<SmallFile>, data: seq<Bytes>, before: Store, r: Round, i: nat)
    requires DistinctPaths(files) && DistinctSent(files) && Possible(Overwrite, files, data, before, r) && i < |files|
    requires files[i].resolved == files[i].path && files[i].size > 0
    ensures AllStored(Overwrite, files, data, before, r) ==>
              Holds(RoundEnd(Overwrite, files, data, before, r), files[i].path, data[i])
  {
    RoundAt(Overwrite, files, data, before, r, i);
    ParsedSmallIs(Overwrite, files, before, r.now, i);
    hide RoundEnd, ParsedSmall;
    assert r.arrivals[..|r.arrivals|] == r.arrivals;
  }

  /** A file sent with its modification time set is skipped by the next Sync. */
  lemma {:induction false} SyncSkipsStored(mode: Mode, files: seq<SmallFile>, data: seq<Bytes>, before: Store, r: Round,
                                           n: nat, later: nat)
    requires DistinctPaths(files) && DistinctSent(files) && Possible(mode, files, data, before, r)
    requires n < r.stored && r.arrivals[n] < |files| && r.touched(n)
    requires files[r.arrivals[n]].resolved == files[r.arrivals[n]].path
    requires |data[r.arrivals[n]]| == files[r.arrivals[n]].size
    ensures ParsedSmall(Sync, files, RoundEnd(mode, files, data, before, r), later).0[r.arrivals[n]]
  {
    var i := r.arrivals[n];
    RoundAt(mode, files, data, before, r, i);
    assert r.arrivals[..r.stored][n] == i;
    ParsedSmallIs(Sync, files, RoundEnd(mode, files, data, before, r), later, i);
    hide RoundEnd, ParsedSmall;
  }

  ghost function Replay(mode: Mode, files: seq<SmallFile>, data: seq<Bytes>, first: Store, rounds: seq<Round>): Store {
    if rounds == [] then first
    else
      var before, last := Replay(mode, files, data, first, rounds[..|rounds| - 1]), rounds[|rounds| - 1];
      if Possible(mode, files, data, before, last) then RoundEnd(mode, files, data, before, last) else before
  }

  /**
   Small files over rounds: whatever the rounds before were broken off by, a round in which all wanted files are stored
   leaves the sent bytes in every file that was not skipped wrongly to begin with, unless in Unique mode one of the
   earlier rounds broke off inside the write of that file.
   */
  lemma {:induction false} SmallFilesResume(mode: Mode, files: seq<SmallFile>, data: seq<Bytes>, first: Store,
                                            rounds: seq<Round>, i: nat)
    requires DistinctPaths(files) && DistinctSent(files) && |data| == |files| && i < |files|
    requires files[i].resolved == files[i].path && |data[i]| == files[i].size
    requires Right(mode, files[i], data[i], first)
    requires mode == Unique ==> forall n, k: nat :: 0 <= n < |rounds| && TornAt(rounds[n], i, k) ==> k == files[i].size
    ensures Right(mode, files[i], data[i], Replay(mode, files, data, first, rounds))
    ensures rounds != [] ==>
              var before, last := Replay(mode, files, data, first, rounds[..|rounds| - 1]), rounds[|rounds| - 1];
              Possible(mode, files, data, before, last) && AllStored(mode, files, data, before, last) ==>
                Holds(Replay(mode, files, data, first, rounds), files[i].path, data[i])
  {
    if rounds != [] {
      var rest, last := rounds[..|rounds| - 1], rounds[|rounds| - 1];
      SmallFilesResume(mode, files, data, first, rest, i);
      var before := Replay(mode, files, data, first, rest);
      hide RoundEnd, Possible, AllStored, Right, Holds;
      if Possible(mode, files, data, before, last) {
        RoundKeeps(mode, files, data, before, last, i);
      }
    }
  }
}
