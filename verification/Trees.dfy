/** Directory trees as maps from component paths, and what an archive's entries describe. */
module Trees {
  import opened Options
  import opened Paths

  type Content = seq<int>

  datatype Node = Dir | File(content: Content)

  /** A directory tree below some root: `[]` is the root directory, absent when it does not exist. */
  type Tree = map<Path, Node>

  /** One archive member: a directory, spelled with or without its slash, or a regular file. */
  datatype Entry = Entry(path: Path, slash: bool, node: Node)

  /** Every path but the root has a directory above it. */
  ghost predicate Closed(t: Tree) {
    && (t != map[] ==> DirAt(t, []))
    && forall p {:trigger Parent(p)} | p in t && p != [] :: DirAt(t, Parent(p))
  }

  lemma {:induction false} AncestorsAreDirs(t: Tree, q: Path, p: Path)
    requires Closed(t) && p in t && q <= p && q != p
    ensures DirAt(t, q)
    decreases |p|
  {
    var parent := Parent(p);
    if q != parent {
      assert q <= parent;
      AncestorsAreDirs(t, q, parent);
    }
  }

  // ---- file system calls ----

  /** `p` and every directory above it. */
  function Ancestry(p: Path): (s: set<Path>)
    ensures forall q :: q in s <==> q <= p
    decreases |p|
  {
    if p == [] then {[]}
    else
      var above := Ancestry(Parent(p));
      assert forall q {:trigger q in above} :: q <= p && q != p ==> q in above;
      above + {p}
  }

  predicate FileAt(t: Tree, p: Path) { p in t && t[p].File? }

  predicate DirAt(t: Tree, p: Path) { p in t && t[p].Dir? }

  /** `os.MkdirAll`: fails on a file in the way. */
  function MkdirAll(t: Tree, p: Path): Option<Tree> {
    if exists q | q in Ancestry(p) :: FileAt(t, q) then None
    else Some(t + map q | q in Ancestry(p) :: Dir)
  }

  /** `createFile`: the directories above the file, then `os.Create`, which fails on a directory. */
  function CreateFileAt(t: Tree, p: Path, content: Content): (r: Option<Tree>)
    requires p != []
  {
    var made := MkdirAll(t, Parent(p));
    if made.None? || DirAt(t, p) then None else Some(made.value[p := File(content)])
  }

  function Put(t: Tree, p: Path, node: Node): Option<Tree>
    requires node.File? ==> p != []
  {
    match node
    case Dir => MkdirAll(t, p)
    case File(content) => CreateFileAt(t, p, content)
  }

  // ---- what a list of entries describes ----

  /** A regular file has a name, and no slash behind it. */
  predicate Nameable(e: Entry) { e.node.File? ==> e.path != [] && !e.slash }

  type Archive = es: seq<Entry> | forall e | e in es :: Nameable(e)

  /** One of the two is a file where the other is a directory or has one on its way. */
  predicate Clash(a: Entry, b: Entry) { InTheWay(a, b) || InTheWay(b, a) }

  predicate InTheWay(a: Entry, b: Entry) {
    a.node.File? && a.path <= b.path && !(b.node.File? && a.path == b.path)
  }

  ghost predicate Clashless(es: seq<Entry>) {
    forall i, j | 0 <= i < |es| && 0 <= j < |es| :: !InTheWay(es[i], es[j])
  }

  /** Distinct paths, and nothing below a file. */
  ghost predicate Treelike(es: seq<Entry>) {
    forall i, j | 0 <= i < |es| && 0 <= j < |es| && i != j ::
      es[i].path != es[j].path && (es[i].node.File? ==> !(es[i].path <= es[j].path))
  }

  /** Some entry is at `q` or below it. */
  ghost predicate Covered(es: seq<Entry>, q: Path) {
    exists i | 0 <= i < |es| :: q <= es[i].path
  }

  /** What the entries put at `q`: the file written there last, or a directory. */
  function NodeAt(es: seq<Entry>, q: Path): (node: Node) {
    if es == [] then Dir
    else
      var last := es[|es| - 1];
      if last.node.File? && last.path == q then last.node else NodeAt(es[..|es| - 1], q)
  }

  /** `t` holds exactly what the entries describe below `r`, with `r` stripped. */
  ghost predicate Represents(t: Tree, es: seq<Entry>, r: Path) {
    && (forall p :: p in t <==> p == [] || Covered(es, r + p))
    && forall p | p in t :: t[p] == NodeAt(es, r + p)
  }

  lemma {:induction false} FileNodeHasEntry(es: seq<Entry>, q: Path) returns (i: nat)
    requires NodeAt(es, q).File?
    ensures i < |es| && es[i].path == q && es[i].node == NodeAt(es, q)
  {
    var n := |es| - 1;
    if es[n].node.File? && es[n].path == q {
      i := n;
    } else {
      i := FileNodeHasEntry(es[..n], q);
    }
  }

  /** Where a file is written, the last one written stays. */
  lemma {:induction false} FileEntryIsThere(es: seq<Entry>, i: nat)
    requires i < |es| && es[i].node.File?
    ensures NodeAt(es, es[i].path).File?
  {
    var n := |es| - 1;
    if i < n && !(es[n].node.File? && es[n].path == es[i].path) {
      FileEntryIsThere(es[..n], i);
    }
  }

  lemma FileIsCovered(es: seq<Entry>, q: Path)
    ensures NodeAt(es, q).File? ==> Covered(es, q)
  {
    if NodeAt(es, q).File? {
      var i := FileNodeHasEntry(es, q);
    }
  }

  lemma EntryNodeIsThere(es: seq<Entry>, i: nat)
    requires Treelike(es) && i < |es|
    ensures NodeAt(es, es[i].path) == es[i].node
  {
    if es[i].node.File? {
      FileEntryIsThere(es, i);
    }
    if NodeAt(es, es[i].path).File? {
      var k := FileNodeHasEntry(es, es[i].path);
    }
  }

  lemma {:induction false} NodeAtAppend(a: seq<Entry>, b: seq<Entry>, q: Path)
    ensures NodeAt(a + b, q) == if NodeAt(b, q).File? then NodeAt(b, q) else NodeAt(a, q)
  {
    if b == [] {
      assert a + b == a;
    } else {
      var n := |b| - 1;
      assert (a + b)[..|a + b| - 1] == a + b[..n];
      NodeAtAppend(a, b[..n], q);
    }
  }

  lemma CoveredAppend(a: seq<Entry>, b: seq<Entry>, q: Path)
    ensures Covered(a + b, q) <==> Covered(a, q) || Covered(b, q)
  {
    if Covered(a, q) {
      var i :| 0 <= i < |a| && q <= a[i].path;
      assert (a + b)[i] == a[i];
    }
    if Covered(b, q) {
      var i :| 0 <= i < |b| && q <= b[i].path;
      assert (a + b)[|a| + i] == b[i];
    }
  }
}
