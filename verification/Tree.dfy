/**
 The receiver's directory tree as one map from paths to files, in which every file of a transfer has its three paths
 (crates/core/src/disk/staging.rs). What the writer of one file sees is a view of this map: files whose paths coincide
 see each other's data.
 */
module Tree {
  import opened Wrappers
  import opened Chunks
  import opened Disk
  import opened Staging

  type Tree = map<Path, File>

  function FileAt(tree: Tree, p: Path): Option<File> {
    if p in tree then Some(tree[p]) else None
  }

  function BytesAt(tree: Tree, p: Path): Option<Bytes> {
    if p in tree then Some(tree[p].data) else None
  }

  /** What is at the three paths of one file. */
  function View(tree: Tree, s: TransferStaging, rel: Path): Disk {
    Disk(BytesAt(tree, s.PartPath(rel)), BytesAt(tree, s.StatePath(rel)), FileAt(tree, s.FinalPath(rel)))
  }

  function Write(tree: Tree, p: Path, file: Option<File>): Tree {
    match file case None => tree - {p} case Some(f) => tree[p := f]
  }

  /** A staging file gets new contents, if they are new. Nothing reads its time. */
  function Restage(tree: Tree, p: Path, bytes: Option<Bytes>): Tree {
    if BytesAt(tree, p) == bytes then tree
    else Write(tree, p, if bytes.Some? then Some(File(bytes.value, 0)) else None)
  }

  function Put(tree: Tree, s: TransferStaging, rel: Path, d: Disk): Tree {
    var tree1 := Restage(tree, s.PartPath(rel), d.part);
    var tree2 := Restage(tree1, s.StatePath(rel), d.state);
    Write(tree2, s.FinalPath(rel), d.final)
  }

  /** The operations of a trace, done at the paths of one file. */
  function Perform(tree: Tree, s: TransferStaging, rel: Path, trace: seq<Disk>): Tree {
    Put(tree, s, rel, End(View(tree, s, rel), trace))
  }

  /** No operation, no change. */
  lemma PerformNothing(tree: Tree, s: TransferStaging, rel: Path)
    ensures Perform(tree, s, rel, []) == tree
  {
    var final := s.FinalPath(rel);
    assert Write(tree, final, FileAt(tree, final)) == tree;
  }

  lemma PutElsewhere(tree: Tree, s: TransferStaging, rel: Path, d: Disk, p: Path)
    requires p !in Owned(s, rel)
    ensures FileAt(Put(tree, s, rel, d), p) == FileAt(tree, p) && BytesAt(Put(tree, s, rel, d), p) == BytesAt(tree, p)
  {
  }

  lemma PutOther(tree: Tree, s: TransferStaging, rel: Path, d: Disk, other: Path)
    requires Owned(s, rel) !! Owned(s, other)
    ensures View(Put(tree, s, rel, d), s, other) == View(tree, s, other)
  {
    forall p | p in Owned(s, other)
      ensures FileAt(Put(tree, s, rel, d), p) == FileAt(tree, p) && BytesAt(Put(tree, s, rel, d), p) == BytesAt(tree, p)
    {
      PutElsewhere(tree, s, rel, d, p);
    }
    hide Put, Separate;
    assert s.PartPath(other) in Owned(s, other);
    assert s.StatePath(other) in Owned(s, other);
    assert s.FinalPath(other) in Owned(s, other);
  }

  lemma PutOwn(tree: Tree, s: TransferStaging, rel: Path, d: Disk)
    requires Placed(s, rel) && !InStaging(s, s.FinalPath(rel))
    ensures View(Put(tree, s, rel, d), s, rel) == d
  {
    OwnPaths(s, rel);
    hide TransferStaging.PartPath, TransferStaging.StatePath, TransferStaging.FinalPath, InStaging, Placed;
  }

  /** An operation of one file is seen by that file as its trace says, and by no other. */
  lemma PerformMoves(tree: Tree, s: TransferStaging, rels: seq<Path>, f: nat, trace: seq<Disk>)
    requires f < |rels| && Separate(s, rels) && Placed(s, rels[f])
    ensures View(Perform(tree, s, rels[f], trace), s, rels[f]) == End(View(tree, s, rels[f]), trace)
    ensures forall g :: 0 <= g < |rels| && g != f ==>
              View(Perform(tree, s, rels[f], trace), s, rels[g]) == View(tree, s, rels[g])
  {
    hide View, Put, Owned, InStaging;
    var d := End(View(tree, s, rels[f]), trace);
    assert !InStaging(s, s.FinalPath(rels[f]));
    PutOwn(tree, s, rels[f], d);
    forall g | 0 <= g < |rels| && g != f
      ensures View(Put(tree, s, rels[f], d), s, rels[g]) == View(tree, s, rels[g])
    {
      var a, b := if f < g then f else g, if f < g then g else f;
      assert Owned(s, rels[a]) !! Owned(s, rels[b]);
      PutOther(tree, s, rels[f], d, rels[g]);
    }
  }

  /** No store to one file shows in the view of another, and no clean-up touches a final file. */
  ghost predicate Independent(s: TransferStaging, rels: seq<Path>) {
    && (forall tree: Tree, f, g, d: Disk :: 0 <= f < |rels| && 0 <= g < |rels| && f != g ==>
          View(Put(tree, s, rels[f], d), s, rels[g]) == View(tree, s, rels[g]))
    && (forall tree: Tree, f, gone: set<Path> :: 0 <= f < |rels| && (forall p :: p in gone ==> InStaging(s, p)) ==>
          View(tree - gone, s, rels[f]).final == View(tree, s, rels[f]).final)
  }

  lemma SweepSpares(tree: Tree, s: TransferStaging, rel: Path, gone: set<Path>)
    requires !InStaging(s, s.FinalPath(rel)) && forall p :: p in gone ==> InStaging(s, p)
    ensures View(tree - gone, s, rel).final == View(tree, s, rel).final
  {
  }

  /** The clean-up may take a final file from a tree if and only if its path is in the staging folder. */
  lemma SweepTakes(s: TransferStaging, rel: Path)
    ensures InStaging(s, s.FinalPath(rel)) <==>
              exists tree: Tree, gone: set<Path> ::
                && (forall p :: p in gone ==> InStaging(s, p))
                && View(tree - gone, s, rel).final != View(tree, s, rel).final
  {
    var p := s.FinalPath(rel);
    var tree: Tree := map[p := File([], 0)];
    assert View(tree - {p}, s, rel).final != View(tree, s, rel).final;
    hide InStaging;
    forall tree: Tree, gone: set<Path> | !InStaging(s, p) && forall q :: q in gone ==> InStaging(s, q)
      ensures View(tree - gone, s, rel).final == View(tree, s, rel).final
    {
      SweepSpares(tree, s, rel, gone);
    }
  }

  lemma SharedPath(s: TransferStaging, r1: Path, r2: Path)
    requires !(Owned(s, r1) !! Owned(s, r2))
    ensures var d := Disk(Some([]), Some([]), Some(File([], 0)));
            View(Put(map[], s, r1, d), s, r2) != View(map[], s, r2)
  {
    var p :| p in Owned(s, r1) && p in Owned(s, r2);
    assert p in Put(map[], s, r1, Disk(Some([]), Some([]), Some(File([], 0))));
    hide Put;
  }

  /** Separate paths are exactly what it takes for the files of a transfer not to meet. */
  lemma IndependentIff(s: TransferStaging, rels: seq<Path>)
    ensures Independent(s, rels) <==> Separate(s, rels)
  {
    hide View, Put, InStaging, Owned;
    if Separate(s, rels) {
      forall tree: Tree, f, g, d: Disk | 0 <= f < |rels| && 0 <= g < |rels| && f != g
        ensures View(Put(tree, s, rels[f], d), s, rels[g]) == View(tree, s, rels[g])
      {
        var a, b := if f < g then f else g, if f < g then g else f;
        assert Owned(s, rels[a]) !! Owned(s, rels[b]);
        PutOther(tree, s, rels[f], d, rels[g]);
      }
      forall tree: Tree, f, gone: set<Path> | 0 <= f < |rels| && (forall p :: p in gone ==> InStaging(s, p))
        ensures View(tree - gone, s, rels[f]).final == View(tree, s, rels[f]).final
      {
        SweepSpares(tree, s, rels[f], gone);
      }
    } else if f, g :| 0 <= f < g < |rels| && !(Owned(s, rels[f]) !! Owned(s, rels[g])) {
      SharedPath(s, rels[f], rels[g]);
    } else {
      var f :| 0 <= f < |rels| && InStaging(s, s.FinalPath(rels[f]));
      SweepTakes(s, rels[f]);
    }
  }
}
