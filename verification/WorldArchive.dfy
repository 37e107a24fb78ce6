/** Writing a world into an archive, and getting it back. */
module WorldArchive {
  import opened Options
  import opened Paths
  import opened Trees
  import opened Extraction
  import opened Streaming

  /** The archive types a download can be unpacked from. */
  predicate Downloadable(resourceID: string) {
    HasSuffix(resourceID, ".zip") || HasSuffix(resourceID, ".tar.xz") || HasSuffix(resourceID, ".tar.zst")
  }

  /** The types by their endings: ".tar.gz", for one, is not among them. */
  lemma DownloadableByName(resourceID: string)
    ensures Downloadable(resourceID) <==>
      EndsIn(resourceID, ".zip") || EndsIn(resourceID, ".tar.xz") || EndsIn(resourceID, ".tar.zst")
  {
    PrefixAndSuffix(resourceID, ".zip");
    PrefixAndSuffix(resourceID, ".tar.xz");
    PrefixAndSuffix(resourceID, ".tar.zst");
    hide HasSuffix, EndsIn;
  }

  /** A user may upload such an archive, but no launch can download it. */
  lemma GzipIsNotDownloadable(stem: string)
    ensures !Downloadable(stem + ".tar.gz")
  {
    var s := stem + ".tar.gz";
    assert s[|s| - 1] == ".tar.gz"[6] == 'z' && s[|s| - 2] == ".tar.gz"[5] == 'g';
    SameEnd(s, ".zip", 1);
    SameEnd(s, ".tar.xz", 2);
    SameEnd(s, ".tar.zst", 1);
  }

  lemma SameEnd(s: string, suffix: string, back: nat)
    requires 0 < back <= |suffix| && back <= |s|
    ensures HasSuffix(s, suffix) ==> s[|s| - back] == suffix[|suffix| - back]
  {
    if HasSuffix(s, suffix) {
      assert s[|s| - back] == s[|s| - |suffix|..][|suffix| - back];
    }
  }

  function EntryFor(t: Tree, dir: Name, p: Path): Entry
    requires p in t
  {
    Entry([dir] + p, false, t[p])
  }

  /** `paths` lists what has been written of the tree: each path once. */
  ghost predicate Written(es: seq<Entry>, t: Tree, dir: Name, paths: seq<Path>) {
    && |es| == |paths|
    && (forall i | 0 <= i < |es| :: paths[i] in t && es[i] == EntryFor(t, dir, paths[i]))
    && forall i, j | 0 <= i < j < |paths| :: paths[i] != paths[j]
  }

  /** Every path of the tree once, a level.dat at its top in second place. */
  ghost predicate ArchivedAs(es: seq<Entry>, t: Tree, dir: Name, paths: seq<Path>) {
    && Written(es, t, dir, paths)
    && (forall p :: p in t <==> p in paths)
    && (FileAt(t, [LEVEL_DAT]) ==> |paths| >= 2 && paths[0] == [] && paths[1] == [LEVEL_DAT])
  }

  ghost predicate Archives(es: seq<Entry>, t: Tree, dir: Name) {
    exists paths :: ArchivedAs(es, t, dir, paths)
  }

  /** The tree is there, and its level.dat, if there is one, can be copied. */
  predicate Writable(t: Tree) { [] in t && !DirAt(t, [LEVEL_DAT]) }

  lemma WriteOneMore(es: seq<Entry>, t: Tree, dir: Name, paths: seq<Path>, p: Path)
    requires Written(es, t, dir, paths) && p in t && p !in paths
    ensures Written(es + [EntryFor(t, dir, p)], t, dir, paths + [p])
  {
  }

  /** `writeTar` for one directory: its level.dat first, if it has one, and then a walk over the rest. */
  method WriteTar(t: Tree, dir: Name) returns (ok: bool, es: Archive)
    requires Closed(t)
    ensures ok <==> [] in t && !(["level.dat"] in t && t[["level.dat"]] == Dir)
    ensures ok ==> Archives(es, t, dir)
  {
    assert [LEVEL_DAT] == ["level.dat"];
    es := [];
    ghost var paths: seq<Path> := [];
    var levelDatWritten := false;
    if [LEVEL_DAT] in t {
      if t[[LEVEL_DAT]].Dir? {
        // It opens, but it cannot be copied.
        return false, [];
      }
      assert [] in t;
      es := [EntryFor(t, dir, []), EntryFor(t, dir, [LEVEL_DAT])];
      paths := [[], [LEVEL_DAT]];
      levelDatWritten := true;
    }
    if [] !in t {
      return false, [];
    }
    ghost var head := paths;
    var todo := t.Keys;
    while todo != {}
      invariant todo <= t.Keys
      invariant Written(es, t, dir, paths)
      invariant head <= paths
      invariant forall p :: p in paths <==> p in head || (p in t && p !in todo)
      decreases |todo|
    {
      ghost var shortest := ShortestPath(todo);
      var p :| p in todo && (p != [] ==> Parent(p) !in todo);
      todo := todo - {p};
      if !(levelDatWritten && (p == [] || p == [LEVEL_DAT])) {
        WriteOneMore(es, t, dir, paths, p);
        es := es + [EntryFor(t, dir, p)];
        paths := paths + [p];
      }
    }
    assert ArchivedAs(es, t, dir, paths);
    ok := true;
  }

  /** The entry has the directory's name in front of a path of the tree, and what the tree has there. */
  predicate EntryOf(t: Tree, dir: Name, e: Entry) {
    && e.path != [] && e.path[0] == dir && !e.slash
    && e.path[1..] in t && e.node == t[e.path[1..]]
  }

  /**
   An archive has one entry for each path of the tree, and if there is a level.dat file at the top,
   it and the directory come first.
   */
  lemma ArchiveLayout(es: Archive, t: Tree, dir: Name)
    requires Archives(es, t, dir)
    ensures |es| == |t| && forall e | e in es :: EntryOf(t, dir, e)
    ensures forall p | p in t :: Entry([dir] + p, false, t[p]) in es
    ensures ["level.dat"] in t && t[["level.dat"]].File? ==> |es| >= 2 && es[0].path == [dir] && es[1].path == [dir, "level.dat"]
  {
    hide ArchivedAs, EntryOf;
    var paths :| ArchivedAs(es, t, dir, paths);
    SizeOfArchive(es, t, dir, paths);
    forall e | e in es
      ensures EntryOf(t, dir, e)
    {
      var i :| 0 <= i < |es| && es[i] == e;
      EntryAt(es, t, dir, paths, i);
    }
    forall p | p in t
      ensures Entry([dir] + p, false, t[p]) in es
    {
      var i := PlaceOf(es, t, dir, paths, p);
      EntryAt(es, t, dir, paths, i);
    }
    if ["level.dat"] in t && t[["level.dat"]].File? {
      FirstTwo(es, t, dir, paths);
    }
  }

  lemma EntryAt(es: seq<Entry>, t: Tree, dir: Name, paths: seq<Path>, i: nat)
    requires ArchivedAs(es, t, dir, paths) && i < |es|
    ensures |es| == |paths| && paths[i] in t && es[i] == Entry([dir] + paths[i], false, t[paths[i]]) && EntryOf(t, dir, es[i])
  {
    assert ([dir] + paths[i])[1..] == paths[i];
  }

  lemma PlaceOf(es: seq<Entry>, t: Tree, dir: Name, paths: seq<Path>, p: Path) returns (i: nat)
    requires ArchivedAs(es, t, dir, paths) && p in t
    ensures i < |es| == |paths| && paths[i] == p
  {
    i :| 0 <= i < |paths| && paths[i] == p;
  }

  lemma FirstTwo(es: seq<Entry>, t: Tree, dir: Name, paths: seq<Path>)
    requires ArchivedAs(es, t, dir, paths) && ["level.dat"] in t && t[["level.dat"]].File?
    ensures |es| >= 2 && es[0].path == [dir] && es[1].path == [dir, "level.dat"]
  {
    assert [LEVEL_DAT] == ["level.dat"];
    assert FileAt(t, [LEVEL_DAT]);
  }

  lemma SizeOfArchive(es: seq<Entry>, t: Tree, dir: Name, paths: seq<Path>)
    requires ArchivedAs(es, t, dir, paths)
    ensures |es| == |t|
  {
    CountPaths(t, paths);
  }

  lemma {:induction false} CountPaths(t: Tree, paths: seq<Path>)
    requires (forall p :: p in t <==> p in paths) && forall i, j | 0 <= i < j < |paths| :: paths[i] != paths[j]
    ensures |paths| == |t|
  {
    if paths == [] {
      assert t == map[];
    } else {
      var n := |paths| - 1;
      var rest := t - {paths[n]};
      assert rest.Keys == t.Keys - {paths[n]};
      CountPaths(rest, paths[..n]);
    }
  }

  lemma WrittenIsTreelike(es: seq<Entry>, t: Tree, dir: Name, paths: seq<Path>)
    requires Closed(t) && Written(es, t, dir, paths)
    ensures Treelike(es)
  {
    assert t != map[] ==> DirAt(t, []);
    forall i, j | 0 <= i < |es| && 0 <= j < |es| && i != j
      ensures es[i].path != es[j].path && (es[i].node.File? ==> !(es[i].path <= es[j].path))
    {
      SamePrefix([dir], paths[i], paths[j]);
      assert paths[i] != paths[j];
      if es[i].node.File? && paths[i] <= paths[j] {
        AncestorsAreDirs(t, paths[i], paths[j]);
        assert false;
      }
    }
  }

  /** What the archive describes at a path below its directory is what the tree has there. */
  lemma ArchivedNode(es: seq<Entry>, t: Tree, dir: Name, paths: seq<Path>, p: Path)
    requires Closed(t) && Written(es, t, dir, paths) && forall q :: q in t <==> q in paths
    ensures Covered(es, [dir] + p) <==> p in t
    ensures p in t ==> NodeAt(es, [dir] + p) == t[p]
  {
    if p in t {
      var i :| 0 <= i < |paths| && paths[i] == p;
      assert [dir] + p <= es[i].path;
      WrittenIsTreelike(es, t, dir, paths);
      EntryNodeIsThere(es, i);
    }
    if Covered(es, [dir] + p) {
      var i :| 0 <= i < |es| && [dir] + p <= es[i].path;
      SamePrefix([dir], p, paths[i]);
      if p != paths[i] {
        AncestorsAreDirs(t, p, paths[i]);
      }
    }
  }

  /** With a level.dat at the top of the tree, the extractor finds the root where the writer put it. */
  lemma RestoredTree(es: Archive, t: Tree, dir: Name, paths: seq<Path>)
    requires Closed(t) && ArchivedAs(es, t, dir, paths) && dir != LEVEL_DAT && FileAt(t, [LEVEL_DAT])
    ensures ExtractedTree(es) == Some(t)
  {
    hide FirstLevelDat, NodeAt, Covered, Represents, ExtractedTree, Treelike, Closed;
    WrittenIsTreelike(es, t, dir, paths);
    StreamingIsTwoPass(es);
    SecondIsLevelDat(es, t, dir, paths);
    hide ArchivedAs;
    WritesAll(es, t, dir, paths);
    SameTree(es, t, dir, paths, ExtractedTree(es).value);
  }

  lemma WritesAll(es: seq<Entry>, t: Tree, dir: Name, paths: seq<Path>)
    requires Closed(t) && ArchivedAs(es, t, dir, paths) && FileAt(t, [LEVEL_DAT])
    ensures Written(es, t, dir, paths) && (forall q :: q in t <==> q in paths) && [] in t
  {
  }

  lemma SecondIsLevelDat(es: Archive, t: Tree, dir: Name, paths: seq<Path>)
    requires ArchivedAs(es, t, dir, paths) && dir != LEVEL_DAT && FileAt(t, [LEVEL_DAT])
    ensures FirstLevelDat(es) == Some(1) && RootOf(es[1]) == [dir]
  {
    assert es[0].path == [dir] && es[1].path == [dir, LEVEL_DAT];
    hide ArchivedAs;
    FirstOf(es);
  }

  lemma FirstOf(es: seq<Entry>)
    requires |es| >= 2 && IsLevelDat(es[1].path) && !IsLevelDat(es[0].path)
    ensures FirstLevelDat(es) == Some(1)
  {
  }

  lemma SameTree(es: seq<Entry>, t: Tree, dir: Name, paths: seq<Path>, out: Tree)
    requires Closed(t) && Written(es, t, dir, paths) && (forall q :: q in t <==> q in paths) && [] in t
    requires Represents(out, es, [dir])
    ensures out == t
  {
    hide Written, NodeAt, Covered, Closed;
    forall p
      ensures p in out <==> p in t
      ensures p in t ==> out[p] == t[p]
    {
      ArchivedNode(es, t, dir, paths, p);
      assert p in out <==> p == [] || Covered(es, [dir] + p);
    }
  }

  lemma {:induction false} LongestPath(s: set<Path>) returns (p: Path)
    requires s != {}
    ensures p in s && forall q | q in s :: |q| <= |p|
    decreases |s|
  {
    p :| p in s;
    if q :| q in s && |p| < |q| {
      p := LongestPath(s - {p});
    }
  }

  /** Without one, the extractor takes some directory inside the tree for the root, and what it leaves is not the tree. */
  lemma NotRestoredTree(es: Archive, t: Tree, dir: Name, paths: seq<Path>)
    requires Closed(t) && ArchivedAs(es, t, dir, paths) && dir != LEVEL_DAT && [LEVEL_DAT] !in t
    ensures ExtractedTree(es) != Some(t)
  {
    WrittenIsTreelike(es, t, dir, paths);
    StreamingIsTwoPass(es);
    hide FirstLevelDat, NodeAt, Covered, Represents, ExtractedTree, Treelike;
    if ExtractedTree(es).Some? {
      var k := FirstLevelDat(es).value;
      NestedLevelDat(dir, paths[k]);
      assert RootOf(es[k]) == Parent([dir] + paths[k]);
      hide Written;
      NotDeeper(es, t, dir, paths, Parent(paths[k]), ExtractedTree(es).value);
    }
  }

  lemma NestedLevelDat(dir: Name, p: Path)
    requires IsLevelDat([dir] + p) && dir != LEVEL_DAT && p != [LEVEL_DAT]
    ensures p != [] && Parent(p) != [] && Parent([dir] + p) == [dir] + Parent(p)
  {
    if |p| == 1 {
      assert false;
    }
  }

  /** A finite tree is not its own subtree. */
  lemma NotDeeper(es: seq<Entry>, t: Tree, dir: Name, paths: seq<Path>, inner: Path, out: Tree)
    requires Closed(t) && Written(es, t, dir, paths) && (forall q :: q in t <==> q in paths)
    requires Represents(out, es, [dir] + inner) && inner in t && inner != []
    ensures out != t
  {
    hide NodeAt, Covered, Closed, Written;
    var longest := LongestPath(t.Keys);
    var deeper := inner + longest;
    assert [dir] + inner + longest == [dir] + deeper;
    ArchivedNode(es, t, dir, paths, deeper);
    assert longest in out <==> longest == [] || Covered(es, [dir] + deeper);
  }

  /** Extracting the archive of a world gives the very same world exactly when it has a level.dat file at its top. */
  lemma RestoredExactly(es: Archive, t: Tree, dir: Name)
    requires Closed(t) && Writable(t) && Archives(es, t, dir) && dir != LEVEL_DAT
    ensures ExtractedTree(es) == Some(t) <==> FileAt(t, [LEVEL_DAT])
  {
    var paths :| ArchivedAs(es, t, dir, paths);
    hide ArchivedAs, ExtractedTree;
    if FileAt(t, [LEVEL_DAT]) {
      RestoredTree(es, t, dir, paths);
    } else {
      NotRestoredTree(es, t, dir, paths);
    }
  }

  /** Uploading a world and downloading it again gives the very same world exactly when it has a level.dat file at its top. */
  method ArchiveAndExtract(t: Tree, dir: Name) returns (restored: Option<Tree>)
    requires Closed(t) && dir != LEVEL_DAT
    ensures restored == Some(t) <==> FileAt(t, [LEVEL_DAT])
  {
    hide ExtractedTree, Archives;
    assert FileAt(t, [LEVEL_DAT]) ==> DirAt(t, []);
    var written, es := WriteTar(t, dir);
    if !written {
      return None;
    }
    RestoredExactly(es, t, dir);
    var c := new FileCreator();
    var extracted := c.Run(es);
    restored := if extracted then Some(c.out) else None;
  }
}
