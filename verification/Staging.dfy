/**
 Staging paths (crates/core/src/disk/staging.rs). A path is the sequence of its components; a relative path of the
 manifest is never empty.
 */
module Staging {
  import opened Wrappers

  const STAGING_DIR_NAME: string := ".tensou"

  type Path = seq<string>

  function FirstSlash(s: string): (n: nat)
    ensures n <= |s| && (n < |s| ==> s[n] == '/') && '/' !in s[..n]
  {
    if s == [] || s[0] == '/' then 0
    else
      var n := FirstSlash(s[1..]);
      assert s[..n + 1] == [s[0]] + s[1..][..n];
      n + 1
  }

  lemma FirstSlashIs(s: string, n: nat)
    requires n <= |s| && '/' !in s[..n] && (n < |s| ==> s[n] == '/')
    ensures FirstSlash(s) == n
  {
  }

  /** The components of a relative path. */
  function Components(s: string): (p: Path)
    ensures p != []
    decreases |s|
  {
    var n := FirstSlash(s);
    if n == |s| then [s] else [s[..n]] + Components(s[n + 1..])
  }

  function Join(p: Path): string
    requires p != []
  {
    if |p| == 1 then p[0] else p[0] + "/" + Join(p[1..])
  }

  lemma {:induction false} JoinComponents(s: string)
    ensures Join(Components(s)) == s
    decreases |s|
  {
    hide FirstSlash;
    var n := FirstSlash(s);
    assert s == s[..n] + s[n..];
    if n < |s| {
      JoinComponents(s[n + 1..]);
      assert Components(s)[1..] == Components(s[n + 1..]);
      assert s[n..] == "/" + s[n + 1..];
    }
  }

  /** Different relative paths have different components. */
  lemma ComponentsInjective(a: string, b: string)
    ensures Components(a) == Components(b) <==> a == b
  {
    JoinComponents(a);
    JoinComponents(b);
  }

  /** `with_added_extension`: the last component gets a dot and the extension; an empty path stays. */
  function WithAddedExtension(p: Path, ext: string): Path {
    if p == [] then p else p[..|p| - 1] + [p[|p| - 1] + "." + ext]
  }

  datatype TransferStaging = TransferStaging(destDir: Path, topLevelPrefix: Option<string>) {
    function StagingDir(): (dir: Path)
      ensures dir != []
    {
      (if topLevelPrefix.Some? then destDir + [topLevelPrefix.value] else destDir) + [STAGING_DIR_NAME]
    }

    /** The first component is dropped when the transfer has a folder of its own. */
    function StagingRelativePath(rel: Path): Path {
      if topLevelPrefix.Some? && rel != [] then rel[1..] else rel
    }

    function PartPath(rel: Path): Path {
      WithAddedExtension(StagingDir() + StagingRelativePath(rel), "part")
    }

    function StatePath(rel: Path): Path {
      WithAddedExtension(StagingDir() + StagingRelativePath(rel), "state")
    }

    function FinalPath(rel: Path): Path {
      destDir + rel
    }
  }

  lemma ExtensionInjective(a: Path, b: Path, ext: string)
    requires a != [] && b != []
    ensures WithAddedExtension(a, ext) == WithAddedExtension(b, ext) <==> a == b
  {
    var x, y := WithAddedExtension(a, ext), WithAddedExtension(b, ext);
    if x == y {
      var last := |a| - 1;
      assert x[..last] == a[..last] && y[..last] == b[..last];
      assert x[last] == a[last] + "." + ext && y[last] == b[last] + "." + ext;
      assert |a[last]| == |b[last]|;
      assert x[last][..|a[last]|] == a[last] && y[last][..|b[last]|] == b[last];
      assert a == a[..last] + [a[last]] && b == b[..last] + [b[last]];
    }
  }

  /**
   Two files share a `.part` (or a `.state`) path if and only if they are the same file, or differ only in a dropped
   first component; and no file's `.part` is any file's `.state`.
   */
  lemma PathsCollide(s: TransferStaging, r1: Path, r2: Path)
    ensures s.PartPath(r1) == s.PartPath(r2) <==> s.StagingRelativePath(r1) == s.StagingRelativePath(r2)
    ensures s.StatePath(r1) == s.StatePath(r2) <==> s.StagingRelativePath(r1) == s.StagingRelativePath(r2)
    ensures s.PartPath(r1) != s.StatePath(r2)
  {
    var d, a, b := s.StagingDir(), s.StagingRelativePath(r1), s.StagingRelativePath(r2);
    ExtensionInjective(d + a, d + b, "part");
    ExtensionInjective(d + a, d + b, "state");
    if d + a == d + b {
      assert a == (d + a)[|d|..] && b == (d + b)[|d|..];
    }
    var x, y := s.PartPath(r1), s.StatePath(r2);
    var p, q := x[|x| - 1], y[|y| - 1];
    assert p[|p| - 1] == 't' && q[|q| - 1] == 'e';
  }

  /** A transfer with a folder of its own has all its files below that folder. */
  ghost predicate Placed(s: TransferStaging, rel: Path) {
    rel != [] && (s.topLevelPrefix.Some? ==> |rel| >= 2 && rel[0] == s.topLevelPrefix.value)
  }

  /** The three paths the receiver uses for one file. */
  function Owned(s: TransferStaging, rel: Path): set<Path> {
    {s.PartPath(rel), s.StatePath(rel), s.FinalPath(rel)}
  }

  /** Everything in the staging folder, which `cleanup` removes as a whole. */
  predicate InStaging(s: TransferStaging, p: Path) {
    s.StagingDir() <= p
  }

  /** No two files share a path, and no final file is in the staging folder. */
  ghost predicate Separate(s: TransferStaging, rels: seq<Path>) {
    && (forall f, g :: 0 <= f < g < |rels| ==> Owned(s, rels[f]) !! Owned(s, rels[g]))
    && (forall f :: 0 <= f < |rels| ==> !InStaging(s, s.FinalPath(rels[f])))
  }

  /** The relative path goes through a folder (or to a file) with the staging folder's name, in its place. */
  predicate NamesStaging(s: TransferStaging, rel: Path) {
    var depth := if s.topLevelPrefix.Some? then 1 else 0;
    depth < |rel| && rel[depth] == STAGING_DIR_NAME
  }

  lemma StagingPlace(s: TransferStaging, rel: Path)
    requires Placed(s, rel)
    ensures InStaging(s, s.PartPath(rel)) && InStaging(s, s.StatePath(rel))
    ensures InStaging(s, s.FinalPath(rel)) <==> NamesStaging(s, rel)
  {
    var dir, inner := s.StagingDir(), s.StagingRelativePath(rel);
    var base := dir[..|dir| - 1];
    assert dir == base + [STAGING_DIR_NAME];
    var depth := if s.topLevelPrefix.Some? then 1 else 0;
    assert inner == rel[depth..] && inner != [];
    assert s.FinalPath(rel) == base + inner;
    assert s.FinalPath(rel)[|base|] == rel[depth];
    if NamesStaging(s, rel) {
      assert dir == s.FinalPath(rel)[..|dir|];
    }
    assert (dir + inner)[..|dir + inner| - 1][..|dir|] == dir;
  }

  lemma PlacesDiffer(s: TransferStaging, r1: Path, r2: Path)
    requires Placed(s, r1) && Placed(s, r2) && r1 != r2
    ensures s.StagingRelativePath(r1) != s.StagingRelativePath(r2) && s.FinalPath(r1) != s.FinalPath(r2)
  {
    assert s.FinalPath(r1)[|s.destDir|..] == r1 && s.FinalPath(r2)[|s.destDir|..] == r2;
    assert r1 == [r1[0]] + r1[1..] && r2 == [r2[0]] + r2[1..];
  }

  lemma TwoFiles(s: TransferStaging, r1: Path, r2: Path)
    requires Placed(s, r1) && Placed(s, r2)
    requires !InStaging(s, s.FinalPath(r1)) && !InStaging(s, s.FinalPath(r2))
    ensures Owned(s, r1) !! Owned(s, r2) <==> r1 != r2
  {
    StagingPlace(s, r1);
    StagingPlace(s, r2);
    if r1 == r2 {
      assert s.PartPath(r1) in Owned(s, r1);
    } else {
      PlacesDiffer(s, r1, r2);
      PathsCollide(s, r1, r2);
      PathsCollide(s, r2, r1);
    }
    hide TransferStaging.PartPath, TransferStaging.StatePath, TransferStaging.FinalPath, InStaging, Placed;
  }

  /**
   The files of a transfer are separate if and only if their resolved paths differ and none of them has the name of the
   staging folder in the staging folder's place.
   */
  lemma SeparateIff(s: TransferStaging, rels: seq<Path>)
    requires forall f :: 0 <= f < |rels| ==> Placed(s, rels[f])
    ensures Separate(s, rels) <==>
              && (forall f, g :: 0 <= f < g < |rels| ==> rels[f] != rels[g])
              && (forall f :: 0 <= f < |rels| ==> !NamesStaging(s, rels[f]))
  {
    forall f | 0 <= f < |rels|
      ensures InStaging(s, s.FinalPath(rels[f])) <==> NamesStaging(s, rels[f])
    {
      StagingPlace(s, rels[f]);
    }
    hide InStaging, Owned, NamesStaging;
    if forall f :: 0 <= f < |rels| ==> !InStaging(s, s.FinalPath(rels[f])) {
      forall f, g | 0 <= f < g < |rels|
        ensures Owned(s, rels[f]) !! Owned(s, rels[g]) <==> rels[f] != rels[g]
      {
        TwoFiles(s, rels[f], rels[g]);
      }
    }
  }

  /** The three paths of one file differ, and only the final one is outside the staging folder. */
  lemma OwnPaths(s: TransferStaging, rel: Path)
    requires Placed(s, rel) && !InStaging(s, s.FinalPath(rel))
    ensures InStaging(s, s.PartPath(rel)) && InStaging(s, s.StatePath(rel))
    ensures s.PartPath(rel) != s.StatePath(rel)
    ensures s.FinalPath(rel) != s.PartPath(rel) && s.FinalPath(rel) != s.StatePath(rel)
  {
    StagingPlace(s, rel);
    PathsCollide(s, rel, rel);
  }

  /**
   A sent folder that holds a staging folder of its own, left by an interrupted receive: what is in there gets final
   paths in the staging folder of this transfer, one of them the `.part` path of another file.
   */
  lemma SentStagingFolder()
    ensures var s := TransferStaging([], Some("Photos"));
            var inner, video := ["Photos", ".tensou", "a.mp4.part"], ["Photos", "a.mp4"];
            && Placed(s, inner) && Placed(s, video)
            && s.FinalPath(inner) == s.PartPath(video) && InStaging(s, s.FinalPath(inner))
            && !Separate(s, [inner, video])
  {
    var s := TransferStaging([], Some("Photos"));
    var video := ["Photos", "a.mp4"];
    assert s.StagingDir() == ["Photos", ".tensou"];
    assert s.StagingRelativePath(video) == ["a.mp4"];
    assert "a.mp4" + "." + "part" == "a.mp4.part";
    assert s.StagingDir() + ["a.mp4"] == ["Photos", ".tensou", "a.mp4"];
    assert s.PartPath(video) == ["Photos", ".tensou"] + ["a.mp4.part"];
    var inner := ["Photos", ".tensou", "a.mp4.part"];
    assert s.FinalPath(inner) == inner && [inner, video][0] == inner;
    assert s.StagingDir() == inner[..2];
  }

  /** So two files of one folder transfer, neither of them from a staging folder there, share none of their paths. */
  lemma OneFolder(s: TransferStaging, top: string, r1: Path, r2: Path)
    requires r1 != [] && r2 != [] && r1 != r2
    requires s.topLevelPrefix.Some? ==> r1[0] == r2[0] == top
    ensures s.PartPath(r1) != s.PartPath(r2) && s.StatePath(r1) != s.StatePath(r2)
    ensures s.PartPath(r1) != s.StatePath(r2) && s.PartPath(r2) != s.StatePath(r1)
    ensures s.FinalPath(r1) != s.FinalPath(r2)
    ensures Placed(s, r1) && Placed(s, r2) && !NamesStaging(s, r1) && !NamesStaging(s, r2) ==>
              Owned(s, r1) !! Owned(s, r2)
  {
    PathsCollide(s, r1, r2);
    PathsCollide(s, r2, r1);
    assert r1 == [r1[0]] + r1[1..] && r2 == [r2[0]] + r2[1..];
    assert s.FinalPath(r1)[|s.destDir|..] == r1 && s.FinalPath(r2)[|s.destDir|..] == r2;
    if Placed(s, r1) && Placed(s, r2) && !NamesStaging(s, r1) && !NamesStaging(s, r2) {
      StagingPlace(s, r1);
      StagingPlace(s, r2);
      TwoFiles(s, r1, r2);
    }
  }
}
