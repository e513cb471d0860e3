/**
 Files and directories together: looking for an artifact's file can fail for a
 directory in its place, or a file in the place of its directory, as well as for
 there being nothing.
 */
module ArtifactTree {
  import opened Wrappers
  import opened ArtifactLayout
  import opened ArtifactFs

  /** The directories that were made, which no call removes, and the files. */
  datatype Tree = Tree(dirs: set<Path>, files: set<Path>)

  /** What opening a path finds; only NothingThere is reported as a missing artifact. */
  datatype Found = NothingThere | AFile | ADirectory | NotADirectoryBefore

  ghost predicate FileAbove(t: Tree, p: Path)
  {
    exists f :: f in t.files && f < p
  }

  ghost function Look(t: Tree, p: Path): Found
  {
    if FileAbove(t, p) then NotADirectoryBefore
    else if p in t.dirs then ADirectory
    else if p in t.files then AFile
    else NothingThere
  }

  /** The directory of an artifact and those above it. */
  function DirsFor(base: Path, ns: string, id: string): set<Path>
  {
    var d := Dir(base, ns, id);
    set i | 0 <= i <= |d| :: d[..i]
  }

  /** What a call on an artifact may do, whatever fails: make its directories, and change its own files. */
  ghost predicate MayLeave(base: Path, t: Tree, after: Tree, ns: string, id: string)
  {
    && t.dirs <= after.dirs <= t.dirs + DirsFor(base, ns, id)
    && forall p :: p !in Footprint(base, ns, id) ==> (p in after.files <==> p in t.files)
  }

  lemma CallsMayLeave(base: Path, c: Codec, files: Files, ns: string, id: string, op: Op, dirs: set<Path>,
                      made: set<Path>)
    requires made <= DirsFor(base, ns, id)
    ensures MayLeave(base, Tree(dirs, files.Keys), Tree(dirs + made, AfterOp(base, c, files, ns, id, op).Keys), ns, id)
  {
    OpStaysInside(base, c, files, ns, id, op);
  }

  lemma DirsAreAboveFiles(base: Path, ns: string, id: string, p: Path)
    requires GoodNames(ns, id)
    ensures p in DirsFor(base, ns, id) ==> exists q :: q in Footprint(base, ns, id) && p < q
    ensures (exists q :: q in Footprint(base, ns, id) && p < q) ==> p in DirsFor(base, ns, id)
  {
    var d := Dir(base, ns, id);
    DirOf(base, ns, id);
    FootprintIsUnder(base, ns, id);
    if p in DirsFor(base, ns, id) {
      assert p <= d && p < d + [id];
      assert DataPath(base, ns, id) in Footprint(base, ns, id);
    }
    forall q | q in Footprint(base, ns, id) && p < q ensures p in DirsFor(base, ns, id) {
      var n :| n in FileNames(id) && q == d + [n];
      assert p == q[..|p|] == d[..|p|];
    }
  }

  lemma SeparateLooksAlike(base: Path, t: Tree, after: Tree, ns1: string, id1: string, ns2: string, id2: string,
                           p: Path)
    requires GoodNames(ns1, id1) && GoodNames(ns2, id2) && Separate(ns1, id1, ns2, id2)
    requires MayLeave(base, t, after, ns1, id1) && p in Footprint(base, ns2, id2)
    ensures Look(after, p) == Look(t, p)
  {
    FilesAreSharedExactlyOnCollision(base, ns1, id1, ns2, id2);
    DirectoriesAreBlockedExactly(base, ns1, id1, ns2, id2);
    DirectoriesAreBlockedExactly(base, ns2, id2, ns1, id1);
    DirsAreAboveFiles(base, ns1, id1, p);
    forall f | f < p ensures f !in Footprint(base, ns1, id1) {
    }
    assert p !in Footprint(base, ns1, id1) by {
      assert p !in Footprint(base, ns1, id1) * Footprint(base, ns2, id2);
    }
    assert p !in DirsFor(base, ns1, id1);
  }

  /** Calls on the first artifact never change what is found where the second has its files. */
  ghost predicate NeverDisturbs(base: Path, ns1: string, id1: string, ns2: string, id2: string)
  {
    forall t, after, p :: MayLeave(base, t, after, ns1, id1) && p in Footprint(base, ns2, id2) ==>
                            Look(after, p) == Look(t, p)
  }

  /** In an empty tree the directories and the file `f` of the first artifact come to be. */
  lemma FileDisturbs(base: Path, ns1: string, id1: string, ns2: string, id2: string, f: Path, p: Path)
    requires f in Footprint(base, ns1, id1) && p in Footprint(base, ns2, id2) && f <= p
    ensures !NeverDisturbs(base, ns1, id1, ns2, id2)
  {
    var t, after := Tree({}, {}), Tree(DirsFor(base, ns1, id1), {f});
    assert MayLeave(base, t, after, ns1, id1);
    assert Look(t, p) == NothingThere;
    if f == p {
      assert p in after.files;
    } else {
      assert f in after.files && f < p;
    }
    assert Look(after, p) != NothingThere;
  }

  lemma DirectoryDisturbs(base: Path, ns1: string, id1: string, ns2: string, id2: string, p: Path)
    requires p in Footprint(base, ns2, id2) && p in DirsFor(base, ns1, id1)
    ensures !NeverDisturbs(base, ns1, id1, ns2, id2)
  {
    var t, after := Tree({}, {}), Tree(DirsFor(base, ns1, id1), {});
    assert MayLeave(base, t, after, ns1, id1);
    assert Look(t, p) == NothingThere && Look(after, p) == ADirectory;
  }

  /**
   The exact condition: calls on one artifact leave what is found of another as it was, missing, there or in error,
   exactly when they share no file and neither has one where the other needs a directory.
   */
  lemma SeparateExactly(base: Path, ns1: string, id1: string, ns2: string, id2: string)
    requires GoodNames(ns1, id1) && GoodNames(ns2, id2)
    ensures NeverDisturbs(base, ns1, id1, ns2, id2) <==> Separate(ns1, id1, ns2, id2)
  {
    if Separate(ns1, id1, ns2, id2) {
      forall t, after, p | MayLeave(base, t, after, ns1, id1) && p in Footprint(base, ns2, id2)
        ensures Look(after, p) == Look(t, p)
      {
        SeparateLooksAlike(base, t, after, ns1, id1, ns2, id2, p);
      }
    } else if Collide(ns1, id1, ns2, id2) {
      FilesAreSharedExactlyOnCollision(base, ns1, id1, ns2, id2);
      var p :| p in Footprint(base, ns1, id1) * Footprint(base, ns2, id2);
      FileDisturbs(base, ns1, id1, ns2, id2, p, p);
    } else if Blocks(id1, ns2, id2) {
      DirectoriesAreBlockedExactly(base, ns1, id1, ns2, id2);
      var f, p :| f in Footprint(base, ns1, id1) && p in Footprint(base, ns2, id2) && f < p;
      FileDisturbs(base, ns1, id1, ns2, id2, f, p);
    } else {
      DirectoriesAreBlockedExactly(base, ns2, id2, ns1, id1);
      var p, q :| p in Footprint(base, ns2, id2) && q in Footprint(base, ns1, id1) && p < q;
      DirsAreAboveFiles(base, ns1, id1, p);
      DirectoryDisturbs(base, ns1, id1, ns2, id2, p);
    }
  }

  /** "..x" and the namespace "..x", for one: an upload of the first makes every artifact of the second an error. */
  lemma IdsCanBlockANamespace(base: Path, t: Tree, ns: string, id: string)
    requires GoodNames(ns, "..x") && GoodNames("..x", id) && !Escapes(id)
    ensures !Collide(ns, "..x", "..x", id) && Blocks("..x", "..x", id)
    ensures DataPath(base, ns, "..x") in t.files ==> Look(t, MetaPath(base, "..x", id)) == NotADirectoryBefore
  {
    var name := "..x";
    assert name[..2] == ".." && Escapes(name);
    if IsSidecarOf(id, name) {
      SidecarShard(id, name);
    }
    DirOf(base, ns, name);
    DirOf(base, name, id);
    assert DataPath(base, ns, name) < MetaPath(base, name, id);
  }
}
