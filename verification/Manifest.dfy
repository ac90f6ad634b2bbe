/**
 The manifest: id assignment in `build` and target renaming in `rewrite_relative_path`
 (crates/core/src/protocol/manifest.rs). The directory walk is a given list of entries, in walk order.
 */
module Manifest {
  import opened Wrappers
  import opened Chunks
  import opened Handshake
  import opened Staging

  const CHUNK_SIZE: nat := 4 * 1024 * 1024
  const SMALL_FILE_THRESHOLD: nat := 64 * 1024

  type SmallPaths = map<FileId, string>

  datatype Entry = Entry(path: string, size: nat, mtime: nat)

  predicate Small(e: Entry) {
    e.size <= SMALL_FILE_THRESHOLD
  }

  function MetaAt(walk: seq<Entry>, i: nat): Metadata
    requires i < |walk|
  {
    Metadata(i, walk[i].path, walk[i].size, CHUNK_SIZE, walk[i].mtime)
  }

  /** The small (or the large) files, in walk order, each under its place in the walk. */
  function Listed(walk: seq<Entry>, small: bool): seq<Metadata> {
    if walk == [] then []
    else
      var last := |walk| - 1;
      Listed(walk[..last], small) + (if Small(walk[last]) == small then [MetaAt(walk, last)] else [])
  }

  /** Where the sender finds a small file, by id. */
  function SmallPathsOf(walk: seq<Entry>): SmallPaths {
    if walk == [] then map[]
    else
      var last := |walk| - 1;
      var before := SmallPathsOf(walk[..last]);
      if Small(walk[last]) then before[last := walk[last].path] else before
  }

  /** `stream_small_files` finds the path of every small file it sends: ids of small files, and no others, are keys. */
  lemma {:induction false} SmallPathsIs(walk: seq<Entry>, id: FileId)
    ensures id in SmallPathsOf(walk) <==> id < |walk| && Small(walk[id])
    ensures id in SmallPathsOf(walk) ==> SmallPathsOf(walk)[id] == walk[id].path
  {
    if walk != [] {
      SmallPathsIs(walk[..|walk| - 1], id);
    }
  }

  /** One more entry of the walk. */
  lemma NextEntry(walk: seq<Entry>, i: nat)
    requires i < |walk|
    ensures var next, before := walk[..i + 1], walk[..i];
            && Listed(next, false) == Listed(before, false) + (if Small(walk[i]) then [] else [MetaAt(walk, i)])
            && Listed(next, true) == Listed(before, true) + (if Small(walk[i]) then [MetaAt(walk, i)] else [])
            && SmallPathsOf(next) == (if Small(walk[i]) then SmallPathsOf(before)[i := walk[i].path]
                                      else SmallPathsOf(before))
  {
    assert walk[..i + 1][..i] == walk[..i];
  }

  lemma NextSession(large: seq<Metadata>, m: Metadata)
    ensures SessionsOf(large + [m]) == SessionsOf(large)[m.fileId := m]
  {
    assert (large + [m])[..|large|] == large;
  }

  method Build(walk: seq<Entry>)
    returns (large: seq<Metadata>, small: seq<Metadata>, sessions: Sessions, paths: SmallPaths)
    ensures large == Listed(walk, false) && small == Listed(walk, true)
    ensures sessions == SessionsOf(large)
    ensures paths == SmallPathsOf(walk)
  {
    large, small, sessions, paths := [], [], map[], map[];
    assert walk[..0] == [];
    var fileIdCounter := 0;
    while fileIdCounter < |walk|
      invariant 0 <= fileIdCounter <= |walk|
      invariant large == Listed(walk[..fileIdCounter], false) && small == Listed(walk[..fileIdCounter], true)
      invariant sessions == SessionsOf(large)
      invariant paths == SmallPathsOf(walk[..fileIdCounter])
    {
      var e := walk[fileIdCounter];
      var metadata := Metadata(fileIdCounter, e.path, e.size, CHUNK_SIZE, e.mtime);
      NextEntry(walk, fileIdCounter);
      hide Listed, SmallPathsOf, SessionsOf;
      if e.size <= SMALL_FILE_THRESHOLD {
        paths := paths[fileIdCounter := e.path];
        small := small + [metadata];
      } else {
        sessions := sessions[fileIdCounter := metadata];
        NextSession(large, metadata);
        large := large + [metadata];
      }
      fileIdCounter := fileIdCounter + 1;
    }
    assert walk[..|walk|] == walk;
  }

  ghost function CountOf(walk: seq<Entry>, small: bool, n: nat): nat
    requires n <= |walk|
  {
    if n == 0 then 0 else CountOf(walk, small, n - 1) + (if Small(walk[n - 1]) == small then 1 else 0)
  }

  lemma {:induction false} CountPrefix(walk: seq<Entry>, small: bool, n: nat, m: nat)
    requires n <= m <= |walk|
    ensures CountOf(walk[..m], small, n) == CountOf(walk, small, n)
  {
    if n > 0 { CountPrefix(walk, small, n - 1, m); }
  }

  lemma {:induction false} CountMono(walk: seq<Entry>, small: bool, n: nat, m: nat)
    requires n <= m <= |walk|
    ensures CountOf(walk, small, n) <= CountOf(walk, small, m)
  {
    if n < m { CountMono(walk, small, n, m - 1); }
  }

  lemma {:induction false} CountBoth(walk: seq<Entry>, n: nat)
    requires n <= |walk|
    ensures CountOf(walk, true, n) + CountOf(walk, false, n) == n
  {
    if n > 0 { CountBoth(walk, n - 1); }
  }

  /** The metadata of one entry of the walk: its path, its length, its modification time, chunks of 4 MiB. */
  ghost predicate Describes(m: Metadata, e: Entry) {
    m.relativePath == e.path && m.size == e.size && m.modified == e.mtime && m.chunkSize == 4 * 1024 * 1024
  }

  /** Entry i of the walk is in its list, under id i, behind exactly the earlier entries of its kind. */
  lemma {:induction false} PlaceOf(walk: seq<Entry>, small: bool, i: nat)
    requires i < |walk| && Small(walk[i]) == small
    ensures var k := CountOf(walk, small, i);
            && k < |Listed(walk, small)| == CountOf(walk, small, |walk|)
            && Listed(walk, small)[k].fileId == i && Describes(Listed(walk, small)[k], walk[i])
  {
    var last := |walk| - 1;
    ListedLength(walk[..last], small);
    CountPrefix(walk, small, last, last);
    if i < last {
      PlaceOf(walk[..last], small, i);
      CountPrefix(walk, small, i, last);
    }
  }

  lemma {:induction false} ListedLength(walk: seq<Entry>, small: bool)
    ensures |Listed(walk, small)| == CountOf(walk, small, |walk|)
  {
    if walk != [] {
      var last := |walk| - 1;
      ListedLength(walk[..last], small);
      CountPrefix(walk, small, last, last);
    }
  }

  /** Nothing else is in the lists: entry k of a list is some entry of the walk. */
  lemma {:induction false} ComesFrom(walk: seq<Entry>, small: bool, k: nat)
    requires k < |Listed(walk, small)|
    ensures var m := Listed(walk, small)[k];
            && m.fileId < |walk| && Small(walk[m.fileId]) == small && Describes(m, walk[m.fileId])
            && k == CountOf(walk, small, m.fileId)
  {
    var last := |walk| - 1;
    if k < |Listed(walk[..last], small)| {
      ComesFrom(walk[..last], small, k);
      CountPrefix(walk, small, Listed(walk, small)[k].fileId, last);
    } else {
      ListedLength(walk[..last], small);
      CountPrefix(walk, small, last, last);
    }
  }

  /**
   Id assignment: the two lists hold every entry of the walk once, under its own id (with `PlaceOf`); each list is
   in increasing id order; and a file's position is its id minus the number of files of the other list before it.
   The small files are those of at most 64 KiB, so a large one is never empty.
   */
  lemma Ids(walk: seq<Entry>, small: bool, b: nat)
    requires b < |Listed(walk, small)|
    ensures var m := Listed(walk, small)[b];
            && m.fileId < |walk| && Describes(m, walk[m.fileId]) && (m.size <= 65_536 <==> small)
            && b == m.fileId - CountOf(walk, !small, m.fileId)
    ensures forall a :: 0 <= a < b ==> Listed(walk, small)[a].fileId < Listed(walk, small)[b].fileId
  {
    var y := Listed(walk, small)[b].fileId;
    ComesFrom(walk, small, b);
    CountBoth(walk, y);
    forall a | 0 <= a < b
      ensures Listed(walk, small)[a].fileId < y
    {
      ComesFrom(walk, small, a);
      var x := Listed(walk, small)[a].fileId;
      if y <= x { CountMono(walk, small, y, x); }
    }
  }

  /** The ids `flatten` relies on are aligned if and only if no small file precedes a large one in the walk. */
  lemma {:induction false} AlignedIff(walk: seq<Entry>)
    ensures Aligned(Listed(walk, false)) <==>
              forall i, k :: 0 <= i < k < |walk| && !Small(walk[k]) ==> !Small(walk[i])
  {
    if Aligned(Listed(walk, false)) {
      forall i, k | 0 <= i < k < |walk| && !Small(walk[k])
        ensures !Small(walk[i])
      {
        PlaceOf(walk, false, k);
        CountBoth(walk, k);
        CountMono(walk, true, i + 1, k);
      }
    } else {
      var p :| 0 <= p < |Listed(walk, false)| && Listed(walk, false)[p].fileId != p;
      ComesFrom(walk, false, p);
      var id := Listed(walk, false)[p].fileId;
      CountBoth(walk, id);
      SomeSmall(walk, id);
    }
  }

  lemma {:induction false} SomeSmall(walk: seq<Entry>, n: nat)
    requires n <= |walk| && CountOf(walk, true, n) > 0
    ensures exists i :: 0 <= i < n && Small(walk[i])
  {
    if !Small(walk[n - 1]) { SomeSmall(walk, n - 1); }
  }

  /** The top-level component renamed, the rest kept. */
  function Renamed(path: string, mapping: map<string, string>): string {
    var n := FirstSlash(path);
    if path[..n] !in mapping then path
    else if n == |path| then mapping[path[..n]]
    else mapping[path[..n]] + "/" + path[n + 1..]
  }

  /** What is behind the top-level component stays as it is, and a path outside the mapping does altogether. */
  lemma RenamedIs(path: string, mapping: map<string, string>)
    ensures var n := FirstSlash(path);
            Renamed(path, mapping) == if path[..n] in mapping then mapping[path[..n]] + path[n..] else path
  {
    var n := FirstSlash(path);
    if n < |path| { assert path[n..] == "/" + path[n + 1..]; }
  }

  /** The two string tests of the loop hold for a slash-free target exactly when it is the top-level component. */
  lemma OnlyTopMatches(path: string, target: string)
    requires '/' !in target
    ensures path == target || target + "/" <= path <==> target == path[..FirstSlash(path)]
    ensures path == target ==> FirstSlash(path) == |path|
    ensures target + "/" <= path ==> FirstSlash(path) == |target|
  {
    hide FirstSlash;
    var n := FirstSlash(path);
    if target + "/" <= path {
      assert path[|target|] == (target + "/")[|target|] == '/';
      assert path[..|target|] == target;
      FirstSlashIs(path, |target|);
    }
    if path == target {
      assert path[..|path|] == path;
      FirstSlashIs(path, |path|);
    }
    if target == path[..n] && n < |path| { assert path[..n + 1] == target + "/"; }
  }

  /**
   Whatever order the hash map is iterated in, the loop renames the top-level component and nothing else. (Targets
   are file names, so they hold no slash.)
   */
  method RewriteRelativePath(path: string, order: seq<string>, mapping: map<string, string>) returns (r: string)
    requires forall t :: t in order <==> t in mapping
    requires forall t :: t in mapping ==> '/' !in t
    ensures r == Renamed(path, mapping)
  {
    for i := 0 to |order|
      invariant forall k :: 0 <= k < i ==> order[k] != path[..FirstSlash(path)]
    {
      var target := order[i];
      OnlyTopMatches(path, target);
      if path == target {
        return mapping[target];
      } else if target + "/" <= path {
        return mapping[target] + "/" + path[|target| + 1..];
      }
    }
    return path;
  }

  /** The resolved relative paths of the large files. */
  function Rels(large: seq<Metadata>, mapping: map<string, string>): (rels: seq<Path>)
    ensures |rels| == |large|
  {
    seq(|large|, i requires 0 <= i < |large| => Components(Renamed(large[i].relativePath, mapping)))
  }

  function Top(path: string): string {
    path[..FirstSlash(path)]
  }

  lemma RenamedParts(path: string, mapping: map<string, string>)
    requires Top(path) in mapping && '/' !in mapping[Top(path)]
    ensures var r, n := Renamed(path, mapping), FirstSlash(path);
            r == mapping[Top(path)] + path[n..] && FirstSlash(r) == |mapping[Top(path)]|
  {
    var r, n, top := Renamed(path, mapping), FirstSlash(path), mapping[Top(path)];
    if n < |path| { assert path[n..] == "/" + path[n + 1..]; }
    assert r == top + path[n..];
    assert r[..|top|] == top;
    FirstSlashIs(r, |top|);
  }

  /**
   Two files are resolved to one path if and only if their targets get the same new name and they have the same place
   below them: renaming brings files together only by bringing targets together.
   */
  lemma RenamedCollide(p: string, q: string, mapping: map<string, string>)
    requires Top(p) in mapping && Top(q) in mapping
    requires '/' !in mapping[Top(p)] && '/' !in mapping[Top(q)]
    ensures Components(Renamed(p, mapping)) == Components(Renamed(q, mapping)) <==>
              mapping[Top(p)] == mapping[Top(q)] && p[FirstSlash(p)..] == q[FirstSlash(q)..]
  {
    ComponentsInjective(Renamed(p, mapping), Renamed(q, mapping));
    RenamedParts(p, mapping);
    RenamedParts(q, mapping);
    hide *;
    var a, b := Renamed(p, mapping), Renamed(q, mapping);
    assert a == a[..FirstSlash(a)] + a[FirstSlash(a)..] && b == b[..FirstSlash(b)] + b[FirstSlash(b)..];
  }

  lemma RenamedFolder()
    ensures Renamed("P/x", map["P" := "P (1)"]) == "P (1)/x"
  {
    assert "P/x"[..1] == "P" && "P/x"[2..] == "x";
    FirstSlashIs("P/x", 1);
  }

  /** Two large files sent under one path, as from two selections of one name, are never separate. */
  lemma TwoOfOneName(walk: seq<Entry>, i: nat, k: nat, mapping: map<string, string>, s: TransferStaging)
    requires i < k < |walk| && !Small(walk[i]) && !Small(walk[k]) && walk[i].path == walk[k].path
    ensures !Separate(s, Rels(Listed(walk, false), mapping))
  {
    PlaceOf(walk, false, i);
    PlaceOf(walk, false, k);
    CountMono(walk, false, i + 1, k);
    hide Listed, Components, Renamed;
    SamePath(s, Rels(Listed(walk, false), mapping), CountOf(walk, false, i), CountOf(walk, false, k));
  }

  lemma SamePath(s: TransferStaging, rels: seq<Path>, f: nat, g: nat)
    requires f < g < |rels| && rels[f] == rels[g]
    ensures !Separate(s, rels)
  {
    assert s.PartPath(rels[f]) in Owned(s, rels[f]);
  }

  /** Two targets of one new name bring files of one place below them together. */
  lemma TargetsMeet(large: seq<Metadata>, f: nat, g: nat, mapping: map<string, string>, s: TransferStaging)
    requires f < g < |large|
    requires var p, q := large[f].relativePath, large[g].relativePath;
             && Top(p) in mapping && Top(q) in mapping && mapping[Top(p)] == mapping[Top(q)]
             && '/' !in mapping[Top(p)] && p[FirstSlash(p)..] == q[FirstSlash(q)..]
    ensures !Separate(s, Rels(large, mapping))
  {
    RenamedCollide(large[f].relativePath, large[g].relativePath, mapping);
    hide Components, Renamed, Separate;
    SamePath(s, Rels(large, mapping), f, g);
  }

  /** `get_top_level_prefix` */
  function TopLevelPrefix(targets: seq<string>, mapping: map<string, string>, paths: seq<string>): Option<string>
    requires forall t :: t in targets ==> t in mapping
  {
    if |targets| == 1 && exists p :: p in paths && targets[0] + "/" <= p then Some(mapping[targets[0]]) else None
  }

  /** A transfer has a folder of its own, that of its target, if and only if it has one target and that holds files. */
  lemma PrefixIff(targets: seq<string>, mapping: map<string, string>, paths: seq<string>, name: string)
    requires forall t :: t in targets ==> t in mapping && '/' !in t
    ensures TopLevelPrefix(targets, mapping, paths) == Some(name) <==>
              && |targets| == 1 && mapping[targets[0]] == name
              && exists p :: p in paths && Top(p) == targets[0] && FirstSlash(p) < |p|
  {
    if |targets| == 1 {
      forall p | p in paths
        ensures targets[0] + "/" <= p <==> Top(p) == targets[0] && FirstSlash(p) < |p|
      {
        OnlyTopMatches(p, targets[0]);
      }
    }
  }

  /**
   With that prefix every file is below the folder of its transfer. (`build` makes every path begin with its target, and
   a target is a file or a folder.)
   */
  lemma PrefixPlaced(targets: seq<string>, mapping: map<string, string>, paths: seq<string>, dest: Path, path: string)
    requires forall t :: t in targets ==> t in mapping && '/' !in t && '/' !in mapping[t]
    requires forall p :: p in paths ==> Top(p) in targets
    requires forall p, t :: p in paths && t in targets && t + "/" <= p ==> t !in paths
    requires path in paths
    ensures Placed(TransferStaging(dest, TopLevelPrefix(targets, mapping, paths)), Components(Renamed(path, mapping)))
  {
    var prefix := TopLevelPrefix(targets, mapping, paths);
    if prefix.Some? {
      assert Top(path) == targets[0];
      var n := FirstSlash(path);
      assert path[..|path|] == path;
      assert n < |path|;
      RenamedParts(path, mapping);
      var r := Renamed(path, mapping);
      assert r[..FirstSlash(r)] == mapping[targets[0]] && FirstSlash(r) < |r|;
    }
  }
}
