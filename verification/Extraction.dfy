/**
 Streaming extraction of a world archive. The world root is guessed at the first level.dat: what
 came before goes to a temporary directory, what follows goes straight to the output, and at the
 end the world found in the temporary directory is merged into the output.
 */
module Extraction {
  import opened Options
  import opened Paths
  import opened Trees

  const LEVEL_DAT: Name := "level.dat"

  predicate IsLevelDat(p: Path) { p != [] && p[|p| - 1] == LEVEL_DAT }

  /** The world root an entry named level.dat gives away: its directory, or itself if spelled as a directory. */
  function RootOf(e: Entry): Path
    requires IsLevelDat(e.path)
  {
    if e.slash then e.path else Parent(e.path)
  }

  datatype Creator = Creator(out: Tree, tmp: Tree, root: Option<Path>)

  /** `CreateFile` for one entry; None is an error. */
  function CreateStep(c: Creator, e: Entry): (r: Option<Creator>)
    requires Nameable(e)
  {
    var root := if c.root.None? && IsLevelDat(e.path) then Some(RootOf(e)) else c.root;
    if root.None? then
      var tmp := Put(c.tmp, e.path, e.node);
      if tmp.None? then None else Some(c.(tmp := tmp.value))
    else if !Wanted(root.value, e) then Some(c.(root := root))
    else
      var out := Put(c.out, e.path[|root.value|..], e.node);
      if out.None? then None else Some(c.(out := out.value, root := root))
  }

  /** The entry is below the root, or is the root spelled as a directory. */
  predicate Wanted(root: Path, e: Entry) {
    root <= e.path && (root == e.path ==> e.slash || root == [])
  }

  // ---- merging ----

  function Subtree(t: Tree, r: Path): (sub: Tree)
    ensures forall p :: p in sub <==> r + p in t
    ensures forall p | p in sub :: sub[p] == t[r + p]
  {
    var paths := set q | q in t && r <= q :: q[|r|..];
    assert forall q | q in t && r <= q :: r + q[|r|..] == q;
    assert forall p | r + p in t :: (r + p)[|r|..] == p;
    map p | p in paths :: t[r + p]
  }

  function Without(t: Tree, r: Path): Tree {
    map q | q in t && !(r <= q) :: t[q]
  }

  /** No file meets a directory. */
  predicate Mergeable(sub: Tree, out: Tree) {
    forall p | p in sub && p in out :: sub[p].Dir? <==> out[p].Dir?
  }

  /** A file is at `p` or on the way to it. */
  predicate Blocked(t: Tree, p: Path) {
    exists q | q in Ancestry(p) :: FileAt(t, q)
  }

  function FinalizeStep(c: Creator): Option<Creator> {
    if c.root.None? || Blocked(c.tmp, c.root.value) then None
    else
      var root := c.root.value;
      if root !in c.tmp then Some(c)
      else if !Mergeable(Subtree(c.tmp, root), c.out) then None
      else Some(c.(out := c.out + Subtree(c.tmp, root), tmp := Without(c.tmp, root)))
  }

  const EMPTY := Creator(map[], map[[] := Dir], None)

  /** The state after the entries; None if one of them could not be created. */
  function Extract(es: Archive): Option<Creator> {
    if es == [] then Some(EMPTY)
    else
      var before := Extract(es[..|es| - 1]);
      if before.None? then None else CreateStep(before.value, es[|es| - 1])
  }

  /** What extracting the archive leaves in the output; None is an error. */
  function ExtractedTree(es: Archive): Option<Tree> {
    var c := Extract(es);
    if c.None? || FinalizeStep(c.value).None? then None else Some(FinalizeStep(c.value).value.out)
  }

  lemma {:induction false} ShortestPath(s: set<Path>) returns (p: Path)
    requires s != {}
    ensures p in s && forall q | q in s :: |p| <= |q|
    ensures p != [] ==> Parent(p) !in s
    decreases |s|
  {
    p :| p in s;
    if q :| q in s && |q| < |p| {
      p := ShortestPath(s - {p});
    }
  }

  /** The paths not left to do have their parents done, and meet nothing of the other kind. */
  ghost predicate WalkedSoFar(sub: Tree, out: Tree, todo: set<Path>) {
    && todo <= sub.Keys
    && (forall q {:trigger Parent(q)} | q in sub && q !in todo && q != [] :: Parent(q) !in todo)
    && Mergeable(sub - todo, out)
  }

  lemma {:induction false} PrefixesDone(sub: Tree, out: Tree, todo: set<Path>, p: Path, q: Path)
    requires Closed(sub) && WalkedSoFar(sub, out, todo)
    requires p in sub && (p != [] ==> Parent(p) !in todo) && q <= p && q != p
    ensures q !in todo && DirAt(sub, q)
    decreases |p|
  {
    var parent := Parent(p);
    AncestorsAreDirs(sub, q, p);
    if q != parent {
      assert q <= parent;
      PrefixesDone(sub, out, todo, parent, q);
    }
  }

  lemma WalkOn(sub: Tree, out: Tree, todo: set<Path>, p: Path)
    requires WalkedSoFar(sub, out, todo)
    requires p in todo && (p != [] ==> Parent(p) !in todo)
    requires p in out ==> (sub[p].Dir? <==> out[p].Dir?)
    ensures WalkedSoFar(sub, out, todo - {p})
  {
  }

  lemma MoveDirectory(sub: Tree, out: Tree, todo: set<Path>, p: Path)
    requires Closed(sub) && WalkedSoFar(sub, out, todo)
    requires p in todo && sub[p].Dir? && (p != [] ==> Parent(p) !in todo)
    ensures MkdirAll(out + (sub - todo), p) ==
      if FileAt(out, p) then None else Some(out + (sub - (todo - {p})))
  {
    var now := out + (sub - todo);
    forall q | q in Ancestry(p) && q != p
      ensures DirAt(sub, q) && DirAt(now, q) && q !in todo
    {
      PrefixesDone(sub, out, todo, p, q);
    }
    hide Closed, WalkedSoFar, Ancestry;
    assert p in Ancestry(p);
    if FileAt(out, p) {
      assert FileAt(now, p);
    } else {
      assert now + (map q | q in Ancestry(p) :: Dir) == out + (sub - (todo - {p}));
    }
  }

  /**
   The walk of `moveDir`: directories are made, files renamed or copied, parents always first.
   Which of the two happens to a file changes nothing in the output.
   */
  method WalkAndMove(sub: Tree, out0: Tree) returns (ok: bool, out: Tree)
    requires Closed(sub)
    ensures ok <==> Mergeable(sub, out0)
    ensures ok ==> out == out0 + sub
  {
    hide Closed, MkdirAll, Ancestry, WalkedSoFar, Mergeable;
    out := out0;
    var todo := sub.Keys;
    StartWalk(sub, out0);
    while todo != {}
      invariant WalkedSoFar(sub, out0, todo) && todo <= sub.Keys && out == out0 + (sub - todo)
      decreases |todo|
    {
      hide Closed, MkdirAll, Ancestry, WalkedSoFar, Mergeable;
      ghost var shortest := ShortestPath(todo);
      var p :| p in todo && (p != [] ==> Parent(p) !in todo);
      if sub[p].Dir? {
        MoveDirectory(sub, out0, todo, p);
        NotMergeable(sub, out0, p);
        var made := MkdirAll(out, p);
        if made.None? {
          return false, out;
        }
        out := made.value;
      } else {
        // Neither a rename nor os.Create replaces a directory.
        MoveFile(sub, out0, todo, p);
        NotMergeable(sub, out0, p);
        if DirAt(out, p) {
          return false, out;
        }
        out := out[p := sub[p]];
      }
      WalkOn(sub, out0, todo, p);
      todo := todo - {p};
    }
    EndWalk(sub, out0);
    ok := true;
  }

  lemma StartWalk(sub: Tree, out: Tree)
    ensures WalkedSoFar(sub, out, sub.Keys) && out + (sub - sub.Keys) == out
  {
    assert sub - sub.Keys == map[];
  }

  lemma EndWalk(sub: Tree, out: Tree)
    requires WalkedSoFar(sub, out, {})
    ensures Mergeable(sub, out) && sub - {} == sub
  {
    assert sub - {} == sub;
  }

  lemma NotMergeable(sub: Tree, out: Tree, p: Path)
    requires p in sub
    ensures p in out && (sub[p].Dir? <==> out[p].File?) ==> !Mergeable(sub, out)
  {
  }

  lemma MoveFile(sub: Tree, out: Tree, todo: set<Path>, p: Path)
    requires todo <= sub.Keys && p in todo && sub[p].File?
    ensures DirAt(out + (sub - todo), p) <==> DirAt(out, p)
    ensures (out + (sub - todo))[p := sub[p]] == out + (sub - (todo - {p}))
  {
  }

  /** `MoveAll`: a rename of the whole directory if that works, or else the walk; then the rest is removed. */
  method MoveAll(tmp0: Tree, root: Path, out0: Tree) returns (ok: bool, tmp: Tree, out: Tree)
    requires Closed(tmp0) && DirAt(tmp0, root) && Closed(out0)
    ensures ok <==> Mergeable(Subtree(tmp0, root), out0)
    ensures ok ==> out == out0 + Subtree(tmp0, root) && tmp == Without(tmp0, root)
  {
    var sub := Subtree(tmp0, root);
    SubtreeClosed(tmp0, root);
    // os.Rename of a directory never replaces an existing one, and may fail across devices.
    var renamed: bool := *;
    if [] !in out0 && renamed {
      assert out0 == map[];
      return true, Without(tmp0, root), sub;
    }
    ok, out := WalkAndMove(sub, out0);
    tmp := if ok then Without(tmp0, root) else tmp0;
  }

  lemma SubtreeClosed(t: Tree, r: Path)
    requires Closed(t) && DirAt(t, r)
    ensures Closed(Subtree(t, r))
  {
    var sub := Subtree(t, r);
    assert r + [] == r;
    forall p | p in sub && p != []
      ensures DirAt(sub, Parent(p))
    {
      assert Parent(r + p) == r + Parent(p);
    }
  }
}
