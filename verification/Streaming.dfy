/** The extractor itself, and what a whole archive leaves in the output. */
module Streaming {
  import opened Options
  import opened Paths
  import opened Trees
  import opened Extraction

  class FileCreator {
    var out: Tree
    var tmp: Tree
    var worldFound: bool
    var worldRoot: string
    ghost var root: Option<Path>

    /** `worldRoot` spells what everything below the root starts with. */
    ghost predicate Valid()
      reads this
    {
      && (worldFound <==> root.Some?)
      && (worldFound ==> worldRoot == Below(root.value))
    }

    ghost function State(): Creator
      reads this
    {
      Creator(out, tmp, root)
    }

    /** The temporary directory has just been made; the output does not exist yet. */
    constructor ()
      ensures Valid() && State() == EMPTY
    {
      out, tmp := map[], map[[] := Dir];
      worldFound, worldRoot, root := false, "", None;
    }

    method CreateFile(e: Entry) returns (ok: bool)
      requires Valid() && Nameable(e)
      modifies this
      ensures Valid()
      ensures ok <==> CreateStep(old(State()), e).Some?
      ensures ok ==> State() == CreateStep(old(State()), e).value
    {
      hide Put, Components, Inward, Spell, Below, HasPrefix, TrimPrefix, TrimSuffix, Wanted;
      var path := Spell(e.path, e.slash);
      ComponentsOfSpelling(e.path, e.slash);
      var tmpFullPath := Components(path);
      if !worldFound && IsLevelDat(tmpFullPath) {
        TrimSuffixOfLast(e.path, e.slash, LEVEL_DAT);
        worldRoot := TrimSuffix(path, LEVEL_DAT);
        worldFound := true;
        root := Some(RootOf(e));
      }
      if worldFound {
        WantedIsPrefixed(root.value, e);
        if !HasPrefix(path, worldRoot) {
          return true;
        }
        var created := Put(out, Components(TrimPrefix(path, worldRoot)), e.node);
        if created.None? {
          return false;
        }
        out := created.value;
      } else {
        var created := Put(tmp, tmpFullPath, e.node);
        if created.None? {
          return false;
        }
        tmp := created.value;
      }
      ok := true;
    }

    method Finalize() returns (ok: bool)
      requires Valid() && Closed(tmp) && Closed(out)
      modifies this
      ensures Valid()
      ensures ok <==> FinalizeStep(old(State())).Some?
      ensures ok ==> State() == FinalizeStep(old(State())).value
    {
      if !worldFound {
        return false;
      }
      RootSpelling(root.value);
      var oldDir := Components(worldRoot);
      if Blocked(tmp, oldDir) {
        // os.Stat finds a file or ENOTDIR; in both cases the walk cannot start.
        return false;
      }
      if oldDir !in tmp {
        return true;
      }
      assert oldDir in Ancestry(oldDir);
      var moved, tmp', out' := MoveAll(tmp, oldDir, out);
      if moved {
        tmp, out := tmp', out';
      }
      ok := moved;
    }

    /** `Unarchive` and then `Finalize`. */
    method Run(es: Archive) returns (ok: bool)
      requires Valid() && State() == EMPTY
      modifies this
      ensures ok <==> ExtractedTree(es).Some?
      ensures ok ==> out == ExtractedTree(es).value
    {
      hide CreateStep, FinalizeStep, Extract;
      NothingExtracted(es);
      for i := 0 to |es|
        invariant Valid() && Extract(es[..i]) == Some(State())
      {
        hide CreateStep, FinalizeStep, Extract;
        OneMoreExtracted(es, i);
        ok := CreateFile(es[i]);
        if !ok {
          return false;
        }
      }
      assert es[..|es|] == es;
      ExtractKeepsClosed(es);
      ok := Finalize();
    }
  }

  /** The prefix test of the extractor tells what is wanted, and what is left behind the prefix is its path below the root. */
  lemma WantedIsPrefixed(r: Path, e: Entry)
    requires Nameable(e)
    ensures var path := Spell(e.path, e.slash);
      && (HasPrefix(path, Below(r)) <==> Wanted(r, e))
      && (Wanted(r, e) ==>
           var rest := TrimPrefix(path, Below(r));
           Inward(rest) && r <= e.path && Components(rest) == e.path[|r|..] && (e.node.File? ==> e.path[|r|..] != []))
  {
    hide Components, Inward, Spell, Below, HasPrefix, TrimPrefix;
    BelowIsPrefixTest(r, e.path, e.slash);
    if Wanted(r, e) {
      ComponentsOfSpelling(e.path[|r|..], e.slash);
    }
  }

  lemma NothingExtracted(es: Archive)
    ensures Extract(es[..0]) == Some(EMPTY)
  {
  }

  lemma OneMoreExtracted(es: Archive, i: nat)
    requires i < |es| && Extract(es[..i]).Some?
    ensures Extract(es[..i + 1]) == CreateStep(Extract(es[..i]).value, es[i])
    ensures CreateStep(Extract(es[..i]).value, es[i]).None? ==> Extract(es).None?
  {
    hide CreateStep;
    assert es[..i + 1][..i] == es[..i];
    if CreateStep(Extract(es[..i]).value, es[i]).None? {
      StaysFailed(es, i + 1);
    }
  }

  lemma {:induction false} StaysFailed(es: Archive, n: nat)
    requires n <= |es| && Extract(es[..n]).None?
    ensures Extract(es).None?
    decreases |es|
  {
    hide CreateStep;
    if n < |es| {
      assert es[..|es| - 1][..n] == es[..n];
      StaysFailed(es[..|es| - 1], n);
    } else {
      assert es[..n] == es;
    }
  }

  lemma RootSpelling(r: Path)
    ensures Inward(Below(r)) && Components(Below(r)) == r
  {
    SpelledWithSlash(r);
    ComponentsOfSpelling(r, true);
  }

  // ---- putting one more entry into a tree ----

  /** What a successful `Put` leaves. */
  lemma PutShape(t: Tree, p: Path, node: Node)
    requires (node.File? ==> p != []) && Put(t, p, node).Some?
    ensures forall q :: q in Put(t, p, node).value <==> q in t || q <= p
    ensures forall q | q in Put(t, p, node).value ::
      Put(t, p, node).value[q] == if q == p then node else if q <= p then Dir else t[q]
    ensures forall q | q in t && q <= p :: t[q].Dir? || (q == p && node.File?)
  {
    if node.File? {
      assert forall q :: q in Ancestry(Parent(p)) ==> q in Ancestry(p);
      assert forall q :: q in Ancestry(Parent(p)) || q == p <==> q in Ancestry(p);
    }
    assert forall q | q in Ancestry(p) && !(q == p && node.File?) :: !FileAt(t, q);
  }

  lemma PutKeepsClosed(t: Tree, p: Path, node: Node)
    requires (node.File? ==> p != []) && Put(t, p, node).Some? && Closed(t)
    ensures Closed(Put(t, p, node).value)
  {
    PutShape(t, p, node);
    var put := Put(t, p, node).value;
    hide Put;
    forall q | q in put && q != []
      ensures DirAt(put, Parent(q))
    {
      if q <= p {
        assert Parent(q) <= p && Parent(q) != p;
      } else {
        assert DirAt(t, Parent(q));
        assert Parent(q) == p ==> node.Dir?;
      }
    }
    assert [] <= p;
  }

  lemma {:induction false} ExtractKeepsClosed(es: Archive)
    ensures Extract(es).Some? ==> Closed(Extract(es).value.tmp) && Closed(Extract(es).value.out)
  {
    if es != [] && Extract(es).Some? {
      var before, e := es[..|es| - 1], es[|es| - 1];
      ExtractKeepsClosed(before);
      var c := Extract(before).value;
      hide Put, Closed, Extract;
      var root := if c.root.None? && IsLevelDat(e.path) then Some(RootOf(e)) else c.root;
      if root.None? {
        PutKeepsClosed(c.tmp, e.path, e.node);
      } else if Wanted(root.value, e) {
        PutKeepsClosed(c.out, e.path[|root.value|..], e.node);
      }
    }
  }

  /** What extraction leaves is a directory tree. */
  lemma ExtractedIsClosed(es: Archive)
    ensures ExtractedTree(es).Some? ==> Closed(ExtractedTree(es).value)
  {
    ExtractKeepsClosed(es);
    hide Extract;
    if ExtractedTree(es).Some? {
      FinalizeKeepsClosed(Extract(es).value);
    }
  }

  lemma FinalizeKeepsClosed(c: Creator)
    requires Closed(c.tmp) && Closed(c.out) && FinalizeStep(c).Some?
    ensures Closed(FinalizeStep(c).value.out)
  {
    var r := c.root.value;
    assert r in Ancestry(r);
    if r in c.tmp {
      var sub := Subtree(c.tmp, r);
      SubtreeClosed(c.tmp, r);
      assert FinalizeStep(c).value.out == c.out + sub;
      forall p | p in c.out + sub && p != []
        ensures DirAt(c.out + sub, Parent(p))
      {
        assert p in sub ==> DirAt(sub, Parent(p));
        assert p !in sub ==> DirAt(c.out, Parent(p));
      }
    }
  }

  // ---- keeping a tree in step with entries ----

  ghost predicate AllBelow(es: seq<Entry>, r: Path) {
    forall i | 0 <= i < |es| :: r <= es[i].path
  }

  lemma CoveredWithEntry(es: seq<Entry>, e: Entry, q: Path)
    ensures Covered(es + [e], q) <==> Covered(es, q) || q <= e.path
  {
    CoveredAppend(es, [e], q);
    assert Covered([e], q) <==> q <= e.path by {
      assert q <= e.path ==> q <= [e][0].path;
    }
  }

  lemma NodeWithEntry(es: seq<Entry>, e: Entry, q: Path)
    ensures NodeAt(es + [e], q) == if e.node.File? && e.path == q then e.node else NodeAt(es, q)
  {
    assert (es + [e])[..|es + [e]| - 1] == es;
  }

  lemma SamePrefix(r: Path, q: Path, p: Path)
    ensures q <= p <==> r + q <= r + p
    ensures q == p <==> r + q == r + p
  {
    assert (r + p)[|r|..] == p && (r + q)[|r|..] == q;
    if r + q <= r + p {
      assert (r + p)[..|r + q|] == r + q;
      assert (r + p)[..|r + q|][|r|..] == p[..|q|];
    }
    if q <= p {
      assert p == q + p[|q|..];
      assert r + p == r + q + p[|q|..];
    }
  }

  /** A successful `Put` below `r` keeps the tree in step with the entries. */
  lemma PutKeepsRepresents(t: Tree, es: seq<Entry>, r: Path, e: Entry)
    requires Represents(t, es, r) && Nameable(e) && r <= e.path && (e.node.File? ==> e.path != r)
    requires Put(t, e.path[|r|..], e.node).Some?
    ensures Represents(Put(t, e.path[|r|..], e.node).value, es + [e], r)
  {
    var p, node := e.path[|r|..], e.node;
    PutShape(t, p, node);
    var put := Put(t, p, node).value;
    hide NodeAt, Covered, Put, Ancestry;
    forall q
      ensures q in put <==> q == [] || Covered(es + [e], r + q)
      ensures q in put ==> put[q] == NodeAt(es + [e], r + q)
    {
      hide Represents;
      assert r + p == e.path;
      SamePrefix(r, q, p);
      CoveredWithEntry(es, e, r + q);
      NodeWithEntry(es, e, r + q);
      FileIsCovered(es, r + q);
      assert [] <= p;
    }
  }

  /** It fails exactly if the new entry clashes with one before. */
  lemma PutFailsOnClash(t: Tree, es: seq<Entry>, r: Path, e: Entry)
    requires Represents(t, es, r) && Clashless(es) && AllBelow(es, r)
    requires Nameable(e) && r <= e.path && (e.node.File? ==> e.path != r)
    ensures Put(t, e.path[|r|..], e.node).None? <==> exists i | 0 <= i < |es| :: Clash(es[i], e)
  {
    var p := e.path[|r|..];
    assert r + p == e.path;
    if Put(t, p, e.node).None? {
      PutFailure(t, es, r, e);
    } else {
      PutShape(t, p, e.node);
      hide Put, NodeAt, Covered, Ancestry;
      forall i | 0 <= i < |es|
        ensures !Clash(es[i], e)
      {
        NoClashAfterPut(t, es, r, e, i);
      }
    }
  }

  lemma PutFailure(t: Tree, es: seq<Entry>, r: Path, e: Entry)
    requires Represents(t, es, r) && r <= e.path && (e.node.File? ==> e.path != r)
    requires Put(t, e.path[|r|..], e.node).None?
    ensures exists i | 0 <= i < |es| :: Clash(es[i], e)
  {
    var p := e.path[|r|..];
    assert r + p == e.path;
    var above := if e.node.Dir? then p else Parent(p);
    if q :| q in Ancestry(above) && FileAt(t, q) {
      var i := FileNodeHasEntry(es, r + q);
      SamePrefix(r, q, p);
      assert Clash(es[i], e);
    } else {
      assert DirAt(t, p) && Covered(es, e.path) && e.node.File?;
      DirHasOther(es, e.path);
    }
  }

  /** A path that is covered but no file has a directory there or something below it. */
  lemma DirHasOther(es: seq<Entry>, q: Path)
    requires Covered(es, q) && NodeAt(es, q).Dir?
    ensures exists i | 0 <= i < |es| :: q <= es[i].path && !(es[i].node.File? && es[i].path == q)
  {
    var i :| 0 <= i < |es| && q <= es[i].path;
    if es[i].node.File? && es[i].path == q {
      FileEntryIsThere(es, i);
    }
  }

  lemma NoClashAfterPut(t: Tree, es: seq<Entry>, r: Path, e: Entry, i: nat)
    requires Represents(t, es, r) && Clashless(es) && AllBelow(es, r) && i < |es|
    requires r <= e.path
    requires forall q | q in t && q <= e.path[|r|..] :: t[q].Dir? || (q == e.path[|r|..] && e.node.File?)
    requires e.node.File? && e.path[|r|..] in t ==> t[e.path[|r|..]].File?
    ensures !Clash(es[i], e)
  {
    var p, q := e.path[|r|..], es[i].path[|r|..];
    assert r + p == e.path && r + q == es[i].path;
    SamePrefix(r, q, p);
    SamePrefix(r, p, q);
    assert Covered(es, r + q);
    if es[i].node.File? && q <= p {
      FileEntryIsThere(es, i);
    }
    if e.node.File? && p <= q {
      assert Covered(es, r + p);
      var k := FileNodeHasEntry(es, r + p);
      assert !InTheWay(es[k], es[i]);
    }
  }

  lemma ClashlessAppend(es: seq<Entry>, e: Entry)
    ensures Clashless(es + [e]) <==> Clashless(es) && forall i | 0 <= i < |es| :: !Clash(es[i], e)
  {
    var all := es + [e];
    assert forall i | 0 <= i < |es| :: all[i] == es[i];
    assert all[|es|] == e;
    if Clashless(all) {
      forall i | 0 <= i < |es|
        ensures !Clash(es[i], e)
      {
        assert !InTheWay(all[i], all[|es|]) && !InTheWay(all[|es|], all[i]);
      }
      assert forall i, j | 0 <= i < |es| && 0 <= j < |es| :: !InTheWay(all[i], all[j]);
    }
  }

  /** One more entry below `r`: `Put` succeeds exactly if nothing clashes, and keeps the tree in step. */
  lemma PutInStep(t: Tree, es: seq<Entry>, r: Path, e: Entry)
    requires Represents(t, es, r) && Clashless(es) && AllBelow(es, r)
    requires Nameable(e) && r <= e.path && (e.node.File? ==> e.path != r)
    ensures Put(t, e.path[|r|..], e.node).Some? <==> Clashless(es + [e])
    ensures Put(t, e.path[|r|..], e.node).Some? ==> Represents(Put(t, e.path[|r|..], e.node).value, es + [e], r)
    ensures AllBelow(es + [e], r)
  {
    hide Put, Represents, Clash, Clashless;
    PutFailsOnClash(t, es, r, e);
    ClashlessAppend(es, e);
    if Put(t, e.path[|r|..], e.node).Some? {
      PutKeepsRepresents(t, es, r, e);
    }
  }

  // ---- the state between two entries ----

  /** The index of the first entry named level.dat. */
  function FirstLevelDat(es: seq<Entry>): (r: Option<nat>)
    ensures r.Some? ==> r.value < |es| && IsLevelDat(es[r.value].path)
    ensures forall i | 0 <= i < |es| && IsLevelDat(es[i].path) :: r.Some? && r.value <= i
  {
    if es == [] then None
    else
      var r := FirstLevelDat(es[..|es| - 1]);
      if r.Some? then r
      else if IsLevelDat(es[|es| - 1].path) then Some(|es| - 1)
      else None
  }

  /** The entries below the root, in order. */
  function WantedOf(es: Archive, r: Path): (w: Archive)
    ensures forall e | e in w :: e in es && Wanted(r, e)
    ensures forall e | e in es && Wanted(r, e) :: e in w
  {
    if es == [] then []
    else
      var before, e := WantedOf(es[..|es| - 1], r), es[|es| - 1];
      assert es == es[..|es| - 1] + [e];
      if Wanted(r, e) then before + [e] else before
  }

  /**
   Before the first level.dat everything is in the temporary directory; from then on the entries
   before it are there and the world's entries from it on are in the output, under the root.
   */
  ghost predicate Streamed(c: Creator, es: Archive) {
    var first := FirstLevelDat(es);
    if first.None? then c.root == None && c.out == map[] && Represents(c.tmp, es, []) && Clashless(es)
    else
      var k, r := first.value, RootOf(es[first.value]);
      && c.root == Some(r)
      && Represents(c.tmp, es[..k], []) && Clashless(es[..k])
      && Represents(c.out, WantedOf(es[k..], r), r) && Clashless(WantedOf(es[k..], r))
  }

  /** No entry clashes with another one that goes to the same place. */
  ghost predicate Apart(es: Archive) {
    var first := FirstLevelDat(es);
    if first.None? then Clashless(es)
    else Clashless(es[..first.value]) && Clashless(WantedOf(es[first.value..], RootOf(es[first.value])))
  }

  lemma FirstLevelDatAppend(es: seq<Entry>, e: Entry)
    ensures FirstLevelDat(es + [e]) ==
      if FirstLevelDat(es).Some? then FirstLevelDat(es)
      else if IsLevelDat(e.path) then Some(|es|) else None
  {
    assert (es + [e])[..|es + [e]| - 1] == es;
  }

  lemma WantedAppend(es: Archive, e: Entry, r: Path)
    requires Nameable(e)
    ensures WantedOf(es + [e], r) == WantedOf(es, r) + if Wanted(r, e) then [e] else []
  {
    assert (es + [e])[..|es + [e]| - 1] == es;
  }

  lemma WantedBelow(es: Archive, r: Path)
    ensures AllBelow(WantedOf(es, r), r)
  {
  }

  /** The first directory put into a missing output makes the output. */
  lemma PutMakesRoot(p: Path, node: Node)
    requires node.File? ==> p != []
    ensures Put(map[], p, node) == Put(map[[] := Dir], p, node)
  {
    assert [] in Ancestry(p);
    if p != [] {
      assert [] in Ancestry(Parent(p));
    }
    var above := if node.Dir? then p else Parent(p);
    assert map[] + (map q | q in Ancestry(above) :: Dir) == map[[] := Dir] + (map q | q in Ancestry(above) :: Dir);
  }

  /** The first level.dat, like everything put in the output, is below the root. */
  lemma RootAboveLevelDat(e: Entry)
    requires IsLevelDat(e.path)
    ensures Wanted(RootOf(e), e)
  {
    assert !e.slash ==> Parent(e.path) <= e.path && Parent(e.path) != e.path;
  }

  /** A wanted file has a name below the root. */
  lemma WantedFile(r: Path, e: Entry)
    requires Wanted(r, e) && Nameable(e)
    ensures e.node.File? ==> e.path != r && e.path[|r|..] != []
  {
  }

  lemma EmptyRepresents(r: Path)
    ensures Represents(map[[] := Dir], [], r) && Clashless([]) && AllBelow([], r)
  {
  }

  /** Extraction gets through the entries exactly as long as they are apart, and stays in step with them. */
  lemma {:induction false} ExtractIsStreamed(es: Archive)
    ensures Extract(es).Some? <==> Apart(es)
    ensures Extract(es).Some? ==> Streamed(Extract(es).value, es)
  {
    hide CreateStep, Represents, Clashless;
    if es == [] {
      EmptyRepresents([]);
    } else {
      var before, e := es[..|es| - 1], es[|es| - 1];
      assert es == before + [e];
      ExtractIsStreamed(before);
      hide Extract;
      FirstLevelDatAppend(before, e);
      if Extract(before).Some? {
        ExtractOneMore(Extract(before).value, before, e);
      } else {
        StaysTogether(before, e);
      }
    }
  }

  lemma StaysTogether(es: Archive, e: Entry)
    requires Nameable(e) && !Apart(es)
    ensures !Apart(es + [e])
  {
    FirstLevelDatAppend(es, e);
    var first := FirstLevelDat(es);
    hide FirstLevelDat, Clash;
    if first.None? {
      ClashlessAppend(es, e);
      assert (es + [e])[..|es|] == es;
    } else {
      var k := first.value;
      var w := WantedOf(es[k..], RootOf(es[k]));
      assert (es + [e])[k..] == es[k..] + [e] && (es + [e])[..k] == es[..k];
      WantedAppend(es[k..], e, RootOf(es[k]));
      ClashlessAppend(w, e);
      assert w + [] == w;
    }
  }

  lemma ExtractOneMore(c: Creator, es: Archive, e: Entry)
    requires Nameable(e) && Streamed(c, es)
    ensures CreateStep(c, e).Some? <==> Apart(es + [e])
    ensures CreateStep(c, e).Some? ==> Streamed(CreateStep(c, e).value, es + [e])
  {
    FirstLevelDatAppend(es, e);
    var all := es + [e];
    var first := FirstLevelDat(es);
    hide FirstLevelDat, Represents, Clashless, WantedOf, Put;
    if first.None? {
      assert all[|es|] == e && all[..|es|] == es && all[|es|..] == [e];
      if IsLevelDat(e.path) {
        FirstInOutput(e);
      } else {
        assert e.path[0..] == e.path;
        PutInStep(c.tmp, es, [], e);
      }
    } else {
      var k, r := first.value, c.root.value;
      assert all[k] == es[k] && all[..k] == es[..k] && all[k..] == es[k..] + [e];
      WantedAppend(es[k..], e, r);
      WantedBelow(es[k..], r);
      assert WantedOf(es[k..], r) + [] == WantedOf(es[k..], r);
      if Wanted(r, e) {
        WantedFile(r, e);
        PutInStep(c.out, WantedOf(es[k..], r), r, e);
      }
    }
  }

  lemma FirstInOutput(e: Entry)
    requires Nameable(e) && IsLevelDat(e.path)
    ensures var r := RootOf(e);
      && Wanted(r, e) && (e.node.File? ==> e.path[|r|..] != [])
      && Put(map[], e.path[|r|..], e.node).Some?
      && Represents(Put(map[], e.path[|r|..], e.node).value, WantedOf([e], r), r) && Clashless(WantedOf([e], r))
  {
    var r := RootOf(e);
    RootAboveLevelDat(e);
    WantedFile(r, e);
    EmptyRepresents(r);
    assert [] + [e] == [e];
    WantedAppend([], e, r);
    assert WantedOf([], r) == [];
    PutMakesRoot(e.path[|r|..], e.node);
    OneEntryClashless(e);
    hide Put, Represents, WantedOf, Clashless, IsLevelDat, Wanted;
    PutInStep(map[[] := Dir], [], r, e);
  }

  lemma OneEntryClashless(e: Entry)
    ensures Clashless([e])
  {
  }

  // ---- the end ----

  /**
   What extraction amounts to: the world's entries from the first level.dat on, and after them the
   entries before it, which are merged over them at the end.
   */
  function Moved(es: Archive): Archive
    requires FirstLevelDat(es).Some?
  {
    var k := FirstLevelDat(es).value;
    WantedOf(es[k..], RootOf(es[k])) + es[..k]
  }

  lemma ClashlessParts(a: seq<Entry>, b: seq<Entry>)
    ensures Clashless(a + b) <==> Clashless(a) && Clashless(b) && forall i, j | 0 <= i < |a| && 0 <= j < |b| :: !Clash(a[i], b[j])
  {
    var all := a + b;
    assert forall i | 0 <= i < |a| :: all[i] == a[i];
    assert forall j | 0 <= j < |b| :: all[|a| + j] == b[j];
    if Clashless(all) {
      assert forall i, j | 0 <= i < |a| && 0 <= j < |a| :: !InTheWay(all[i], all[j]);
      forall i, j | 0 <= i < |b| && 0 <= j < |b|
        ensures !InTheWay(b[i], b[j])
      {
        assert !InTheWay(all[|a| + i], all[|a| + j]);
      }
      forall i, j | 0 <= i < |a| && 0 <= j < |b|
        ensures !Clash(a[i], b[j])
      {
        assert !InTheWay(all[i], all[|a| + j]) && !InTheWay(all[|a| + j], all[i]);
      }
    } else {
      var i, j :| 0 <= i < |all| && 0 <= j < |all| && InTheWay(all[i], all[j]);
      assert all[i] == if i < |a| then a[i] else b[i - |a|];
      assert all[j] == if j < |a| then a[j] else b[j - |a|];
    }
  }

  /** Two trees cannot be merged exactly if some of their entries clash. */
  lemma MergeFailsOnClash(c: Creator, w: Archive, a: seq<Entry>, r: Path)
    requires c.root == Some(r) && Represents(c.tmp, a, []) && Represents(c.out, w, r)
    requires Clashless(a) && Clashless(w) && AllBelow(w, r) && (exists i | 0 <= i < |w| :: !FileAtRoot(w[i], r))
    ensures FinalizeStep(c).None? <==> exists i, j | 0 <= i < |w| && 0 <= j < |a| :: Clash(w[i], a[j])
  {
    hide Represents, Clash, Clashless, AllBelow, Blocked, Subtree, Mergeable, Without, FileAtRoot;
    if FinalizeStep(c).None? {
      if Blocked(c.tmp, r) {
        BlockedClashes(c.tmp, w, a, r);
      } else {
        UnmergeableClashes(c.tmp, c.out, w, a, r);
      }
    } else {
      forall i, j | 0 <= i < |w| && 0 <= j < |a|
        ensures !Clash(w[i], a[j])
      {
        MergeableApart(c.tmp, c.out, w, a, r, i, j);
      }
    }
  }

  predicate FileAtRoot(e: Entry, r: Path) { e.node.File? && e.path == r }

  lemma BlockedClashes(tmp: Tree, w: Archive, a: seq<Entry>, r: Path)
    requires Represents(tmp, a, []) && AllBelow(w, r) && Blocked(tmp, r)
    requires exists i | 0 <= i < |w| :: !FileAtRoot(w[i], r)
    ensures exists i, j | 0 <= i < |w| && 0 <= j < |a| :: Clash(w[i], a[j])
  {
    var q :| q in Ancestry(r) && FileAt(tmp, q);
    var i :| 0 <= i < |w| && !FileAtRoot(w[i], r);
    assert [] + q == q;
    var j := FileNodeHasEntry(a, q);
    assert InTheWay(a[j], w[i]);
    assert Clash(w[i], a[j]);
  }

  lemma UnmergeableClashes(tmp: Tree, out: Tree, w: Archive, a: seq<Entry>, r: Path)
    requires Represents(tmp, a, []) && Represents(out, w, r)
    requires r in tmp && !Blocked(tmp, r) && !Mergeable(Subtree(tmp, r), out)
    ensures exists i, j | 0 <= i < |w| && 0 <= j < |a| :: Clash(w[i], a[j])
  {
    hide Represents, NodeAt, Covered;
    var p :| p in Subtree(tmp, r) && p in out && !(Subtree(tmp, r)[p].Dir? <==> out[p].Dir?);
    var x := r + p;
    assert [] + x == x;
    AtPath(tmp, a, [], x);
    AtPath(out, w, r, p);
    assert r in Ancestry(r) && !FileAt(tmp, r);
    assert r + [] == r;
    hide Subtree, Mergeable, Blocked, Represents, Ancestry, NodeAt, Covered;
    if tmp[x].File? {
      assert p != [];
      var i, j := FileUnderDir(a, w, x);
      assert Clash(w[j], a[i]);
    } else {
      NoFileAtTop(w);
      assert x != [];
      var i, j := FileUnderDir(w, a, x);
      assert Clash(w[i], a[j]);
    }
  }

  lemma NoFileAtTop(w: Archive)
    ensures NodeAt(w, []).Dir?
  {
    forall i | 0 <= i < |w|
      ensures Nameable(w[i])
    {
      assert w[i] in w;
    }
    if NodeAt(w, []).File? {
      var i := FileNodeHasEntry(w, []);
    }
  }

  /** A file in one list where the other has a directory: two of their entries are in each other's way. */
  lemma FileUnderDir(a: seq<Entry>, b: seq<Entry>, x: Path) returns (i: nat, j: nat)
    requires NodeAt(a, x).File? && Covered(b, x) && NodeAt(b, x).Dir?
    ensures i < |a| && j < |b| && InTheWay(a[i], b[j])
  {
    i := FileNodeHasEntry(a, x);
    DirHasOther(b, x);
    j :| 0 <= j < |b| && x <= b[j].path && !(b[j].node.File? && b[j].path == x);
  }

  lemma MergeableApart(tmp: Tree, out: Tree, w: Archive, a: seq<Entry>, r: Path, i: nat, j: nat)
    requires Represents(tmp, a, []) && Represents(out, w, r) && Clashless(a) && Clashless(w) && AllBelow(w, r)
    requires !Blocked(tmp, r) && (r in tmp ==> Mergeable(Subtree(tmp, r), out))
    requires i < |w| && j < |a|
    ensures !Clash(w[i], a[j])
  {
    hide Mergeable, Subtree, Blocked;
    if InTheWay(a[j], w[i]) {
      FileInTmp(tmp, out, w, a, r, i, j);
    }
    if InTheWay(w[i], a[j]) {
      FileInOut(tmp, out, w, a, r, i, j);
    }
  }

  lemma FileInTmp(tmp: Tree, out: Tree, w: seq<Entry>, a: seq<Entry>, r: Path, i: nat, j: nat)
    requires Represents(tmp, a, []) && Represents(out, w, r) && Clashless(w) && AllBelow(w, r)
    requires i < |w| && j < |a| && InTheWay(a[j], w[i])
    ensures Blocked(tmp, r) || (r in tmp && !Mergeable(Subtree(tmp, r), out))
  {
    var x := a[j].path;
    FileInTree(tmp, a, j);
    hide Represents, Clashless, NodeAt, Covered;
    if x <= r {
      assert x in Ancestry(r);
    } else {
      assert r <= w[i].path;
      assert r <= x && r != x;
      hide Ancestry;
      FileBelowRoot(tmp, out, w, a, r, i, j);
    }
  }

  lemma FileInTree(tmp: Tree, a: seq<Entry>, j: nat)
    requires Represents(tmp, a, []) && j < |a| && a[j].node.File?
    ensures FileAt(tmp, a[j].path)
  {
    var x := a[j].path;
    assert [] + x == x && x <= x;
    assert Covered(a, x);
    FileEntryIsThere(a, j);
    hide NodeAt, Covered;
  }

  lemma FileBelowRoot(tmp: Tree, out: Tree, w: seq<Entry>, a: seq<Entry>, r: Path, i: nat, j: nat)
    requires Represents(tmp, a, []) && Represents(out, w, r) && Clashless(w)
    requires i < |w| && j < |a| && InTheWay(a[j], w[i]) && r <= a[j].path && FileAt(tmp, a[j].path)
    ensures r in tmp && !Mergeable(Subtree(tmp, r), out)
  {
    var x := a[j].path;
    var p := x[|r|..];
    assert r + p == x && [] + r == r;
    assert Covered(a, r) && Covered(w, x);
    NoFileAbove(w, i, x);
    hide NodeAt, Covered, Clashless;
    assert r in tmp && p in Subtree(tmp, r) && p in out;
  }

  lemma FileInOut(tmp: Tree, out: Tree, w: Archive, a: seq<Entry>, r: Path, i: nat, j: nat)
    requires Represents(tmp, a, []) && Represents(out, w, r) && Clashless(a) && AllBelow(w, r)
    requires i < |w| && j < |a| && InTheWay(w[i], a[j])
    ensures r in tmp && !Mergeable(Subtree(tmp, r), out)
  {
    var x := w[i].path;
    var p := x[|r|..];
    hide Represents, NodeAt, Covered, Clashless, InTheWay, AllBelow;
    FileMeetsDirectory(w, a, r, i, j);
    assert r + p == x && [] + r == r && [] + x == x;
    AtPath(tmp, a, [], r);
    AtPath(tmp, a, [], x);
    AtPath(out, w, r, p);
    assert p in Subtree(tmp, r);
  }

  lemma FileMeetsDirectory(w: Archive, a: seq<Entry>, r: Path, i: nat, j: nat)
    requires Clashless(a) && AllBelow(w, r) && i < |w| && j < |a| && InTheWay(w[i], a[j])
    ensures r <= w[i].path && Covered(a, w[i].path) && Covered(w, w[i].path) && Covered(a, r)
    ensures NodeAt(a, w[i].path).Dir? && NodeAt(w, w[i].path).File?
  {
    var x := w[i].path;
    assert r <= a[j].path && x <= a[j].path;
    FileEntryIsThere(w, i);
    NoFileAbove(a, j, x);
  }

  lemma NoFileAbove(es: seq<Entry>, i: nat, x: Path)
    requires Clashless(es) && i < |es| && x <= es[i].path && !(es[i].node.File? && es[i].path == x)
    ensures NodeAt(es, x).Dir?
  {
    assert forall k | 0 <= k < |es| :: !InTheWay(es[k], es[i]);
    if NodeAt(es, x).File? {
      var k := FileNodeHasEntry(es, x);
    }
  }

  /** The merge leaves what the entries of both parts describe, the merged ones last. */
  lemma MergedRepresents(c: Creator, w: Archive, a: seq<Entry>, r: Path)
    requires c.root == Some(r) && Represents(c.tmp, a, []) && Represents(c.out, w, r)
    requires FinalizeStep(c).Some?
    ensures Represents(FinalizeStep(c).value.out, w + a, r)
  {
    hide *;
    forall p
      ensures RepresentsAt(FinalizeStep(c).value.out, w + a, r, p)
    {
      MergedAt(c, w, a, r, p);
    }
    RepresentsPointwise(FinalizeStep(c).value.out, w + a, r);
  }

  ghost predicate RepresentsAt(t: Tree, es: seq<Entry>, r: Path, p: Path) {
    (p in t <==> p == [] || Covered(es, r + p)) && (p in t ==> t[p] == NodeAt(es, r + p))
  }

  lemma RepresentsPointwise(t: Tree, es: seq<Entry>, r: Path)
    requires forall p :: RepresentsAt(t, es, r, p)
    ensures Represents(t, es, r)
  {
    hide Covered, NodeAt;
    forall p
      ensures p in t <==> p == [] || Covered(es, r + p)
      ensures p in t ==> t[p] == NodeAt(es, r + p)
    {
      assert RepresentsAt(t, es, r, p);
    }
  }

  /** What the end leaves at `p`. */
  lemma FinalizedAt(c: Creator, r: Path, p: Path)
    requires c.root == Some(r) && FinalizeStep(c).Some?
    ensures var out := FinalizeStep(c).value.out;
      var moved := r in c.tmp && r + p in c.tmp;
      && (p in out <==> p in c.out || moved)
      && (p in out ==> out[p] == if moved then c.tmp[r + p] else c.out[p])
      && (moved && p in c.out ==> (c.tmp[r + p].Dir? <==> c.out[p].Dir?))
      && (r in c.tmp ==> c.tmp[r].Dir?)
  {
    assert r in Ancestry(r);
    if r in c.tmp {
      assert p in Subtree(c.tmp, r) <==> r + p in c.tmp;
    }
    hide Ancestry, Without;
  }

  lemma MergedAt(c: Creator, w: Archive, a: seq<Entry>, r: Path, p: Path)
    requires c.root == Some(r) && Represents(c.tmp, a, []) && Represents(c.out, w, r)
    requires FinalizeStep(c).Some?
    ensures RepresentsAt(FinalizeStep(c).value.out, w + a, r, p)
  {
    MergedNode(w, a, r + p);
    NothingBelowMissing(c.tmp, a, r);
    FinalizedAt(c, r, p);
    hide FinalizeStep, Represents, NodeAt, Covered;
    AtPath(c.tmp, a, [], r + p);
    AtPath(c.out, w, r, p);
    assert [] + (r + p) == r + p && r + [] == r;
  }

  lemma MergedNode(w: seq<Entry>, a: seq<Entry>, x: Path)
    ensures Covered(w + a, x) <==> Covered(w, x) || Covered(a, x)
    ensures NodeAt(w + a, x) == if NodeAt(a, x).File? then NodeAt(a, x) else NodeAt(w, x)
    ensures NodeAt(w, x).File? ==> Covered(w, x)
    ensures NodeAt(a, x).File? ==> Covered(a, x)
  {
    CoveredAppend(w, a, x);
    NodeAtAppend(w, a, x);
    FileIsCovered(w, x);
    FileIsCovered(a, x);
  }

  lemma NothingBelowMissing(tmp: Tree, a: seq<Entry>, r: Path)
    requires Represents(tmp, a, [])
    ensures r !in tmp ==> forall p :: !Covered(a, r + p)
  {
    forall p | Covered(a, r + p)
      ensures r in tmp
    {
      var i :| 0 <= i < |a| && r + p <= a[i].path;
      assert r <= a[i].path;
      assert [] + r == r;
    }
  }

  // ---- what extraction does, for every archive ----

  /**
   Extraction succeeds exactly if some entry is named level.dat and no entry that it uses clashes
   with another; the output is then exactly what those entries describe below the root.
   */
  lemma ExtractionIsExact(es: Archive)
    ensures ExtractedTree(es).Some? <==> FirstLevelDat(es).Some? && Clashless(Moved(es))
    ensures ExtractedTree(es).Some? ==> Represents(ExtractedTree(es).value, Moved(es), RootOf(es[FirstLevelDat(es).value]))
  {
    ExtractIsStreamed(es);
    hide Extract, Represents, Clashless, FinalizeStep, FirstLevelDat, WantedOf;
    var first := FirstLevelDat(es);
    if first.Some? {
      var k := first.value;
      var a, w, r := es[..k], WantedOf(es[k..], RootOf(es[k])), RootOf(es[k]);
      WantedBelow(es[k..], r);
      ClashlessParts(w, a);
      LevelDatIsWanted(es, k);
      if Extract(es).Some? {
        var c := Extract(es).value;
        MergeFailsOnClash(c, w, a, r);
        if FinalizeStep(c).Some? {
          MergedRepresents(c, w, a, r);
        }
      }
    } else if Extract(es).Some? {
      NoRootNoWorld(Extract(es).value);
    }
  }

  lemma NoRootNoWorld(c: Creator)
    ensures c.root.None? ==> FinalizeStep(c).None?
  {
  }

  lemma LevelDatIsWanted(es: Archive, k: nat)
    requires k < |es| && IsLevelDat(es[k].path)
    ensures var r := RootOf(es[k]); exists i | 0 <= i < |WantedOf(es[k..], r)| :: !FileAtRoot(WantedOf(es[k..], r)[i], r)
  {
    var e, r := es[k], RootOf(es[k]);
    RootAboveLevelDat(e);
    assert e in es && es[k..][0] == e;
    WantedFile(r, e);
    assert e in WantedOf(es[k..], r);
  }

  // ---- for archives of distinct entries with nothing below a file ----

  /** `es` describes the same below its root, whether or not the entries before the first level.dat are taken last. */
  lemma MovedNode(es: Archive, q: Path)
    requires Treelike(es) && FirstLevelDat(es).Some?
    ensures var r := RootOf(es[FirstLevelDat(es).value]);
      && (q != [] ==> (Covered(Moved(es), r + q) <==> Covered(es, r + q)))
      && NodeAt(Moved(es), r + q) == NodeAt(es, r + q)
  {
    var x := RootOf(es[FirstLevelDat(es).value]) + q;
    MovedHas(es);
    if q != [] {
      MovedCovers(es, q);
    }
    hide Moved;
    if NodeAt(Moved(es), x).File? {
      var i := FileNodeHasEntry(Moved(es), x);
      assert Moved(es)[i] in es;
      var j :| 0 <= j < |es| && es[j] == Moved(es)[i];
      hide NodeAt, FirstLevelDat;
      EntryNodeIsThere(es, j);
    } else if NodeAt(es, x).File? {
      var j := FileNodeHasEntry(es, x);
      hide NodeAt, FirstLevelDat;
      FileIsMoved(es, j);
      var i :| 0 <= i < |Moved(es)| && Moved(es)[i] == es[j];
      FileEntryIsThere(Moved(es), i);
    }
  }

  lemma MovedCovers(es: Archive, q: Path)
    requires FirstLevelDat(es).Some? && q != []
    ensures var x := RootOf(es[FirstLevelDat(es).value]) + q; Covered(Moved(es), x) <==> Covered(es, x)
  {
    var r := RootOf(es[FirstLevelDat(es).value]);
    var x := r + q;
    MovedHas(es);
    hide Moved, FirstLevelDat;
    if Covered(es, x) {
      var i :| 0 <= i < |es| && x <= es[i].path;
      assert r <= x && r != x;
      assert es[i] in Moved(es);
    }
    if Covered(Moved(es), x) {
      var i :| 0 <= i < |Moved(es)| && x <= Moved(es)[i].path;
      assert Moved(es)[i] in es;
    }
  }

  /** The entries used are entries of the archive, and all those below the root. */
  lemma MovedHas(es: Archive)
    requires FirstLevelDat(es).Some?
    ensures var r := RootOf(es[FirstLevelDat(es).value]);
      && (forall e | e in Moved(es) :: e in es)
      && forall e | e in es && r <= e.path && r != e.path :: e in Moved(es)
  {
    var k := FirstLevelDat(es).value;
    assert es == es[..k] + es[k..];
  }

  /** No file is at the root itself, so every file at or below the root is used. */
  lemma FileIsMoved(es: Archive, j: nat)
    requires Treelike(es) && FirstLevelDat(es).Some? && j < |es| && es[j].node.File?
    requires RootOf(es[FirstLevelDat(es).value]) <= es[j].path
    ensures es[j] in Moved(es)
  {
    var k := FirstLevelDat(es).value;
    RootAboveLevelDat(es[k]);
    MovedHas(es);
    assert es[k] in es && es[j] in es;
    if j == k {
      WantedFile(RootOf(es[k]), es[k]);
    }
  }

  lemma TreelikeIsClashless(es: Archive)
    requires Treelike(es) && FirstLevelDat(es).Some?
    ensures Clashless(Moved(es))
  {
    MovedHas(es);
    hide Moved;
    forall i, j | 0 <= i < |Moved(es)| && 0 <= j < |Moved(es)|
      ensures !InTheWay(Moved(es)[i], Moved(es)[j])
    {
      assert Moved(es)[i] in es && Moved(es)[j] in es;
    }
  }

  /**
   For every order of distinct entries with nothing below a file, streaming does what extracting in
   two passes would: find the first level.dat, and then take what is below its directory.
   */
  lemma StreamingIsTwoPass(es: Archive)
    requires Treelike(es)
    ensures ExtractedTree(es).Some? <==> FirstLevelDat(es).Some?
    ensures ExtractedTree(es).Some? ==> Represents(ExtractedTree(es).value, es, RootOf(es[FirstLevelDat(es).value]))
  {
    ExtractionIsExact(es);
    hide Represents, ExtractedTree, Clashless, Treelike, FirstLevelDat, Moved, RootOf, Covered, NodeAt;
    if FirstLevelDat(es).Some? {
      TreelikeIsClashless(es);
      var r, t := RootOf(es[FirstLevelDat(es).value]), ExtractedTree(es).value;
      forall q
        ensures RepresentsAt(t, es, r, q)
      {
        MovedNode(es, q);
        AtPath(t, Moved(es), r, q);
      }
      RepresentsPointwise(t, es, r);
    }
  }

  lemma AtPath(t: Tree, es: seq<Entry>, r: Path, p: Path)
    requires Represents(t, es, r)
    ensures RepresentsAt(t, es, r, p)
  {
    hide Covered, NodeAt;
  }

  // ---- in terms of names ----

  /** The entry's name, below any directory, ends in "/level.dat". */
  ghost predicate NamedLevelDat(e: Entry) { EndsIn("/" + Spell(e.path, false), "/level.dat") }

  ghost predicate FirstNamed(es: seq<Entry>, k: nat) {
    k < |es| && NamedLevelDat(es[k]) && forall j | 0 <= j < k :: !NamedLevelDat(es[j])
  }

  /** The directory an entry is in; what is spelled as a directory is that directory. */
  function DirectoryOf(e: Entry): Path
    requires e.path != []
  {
    if e.slash then e.path else e.path[..|e.path| - 1]
  }

  lemma {:induction false} FirstLevelDatByName(es: seq<Entry>)
    ensures var first := FirstLevelDat(es);
      if first.Some? then FirstNamed(es, first.value) && RootOf(es[first.value]) == DirectoryOf(es[first.value])
      else forall j | 0 <= j < |es| :: !NamedLevelDat(es[j])
  {
    hide NamedLevelDat;
    if es != [] {
      var before := es[..|es| - 1];
      FirstLevelDatByName(before);
      LevelDatByName(es[|es| - 1]);
      assert forall j | 0 <= j < |before| :: before[j] == es[j];
    }
  }

  lemma LevelDatByName(e: Entry)
    ensures IsLevelDat(e.path) <==> NamedLevelDat(e)
  {
    assert "/" + LEVEL_DAT == "/level.dat";
    LastInName(e.path, LEVEL_DAT);
  }

  /**
   An archive of distinct entries with nothing below a file is extracted if and only if the name of
   some entry is level.dat or ends in "/level.dat", at whatever depth. The world is then what is in
   the directory of the first such entry.
   */
  lemma ExtractionByName(es: Archive)
    requires Treelike(es)
    ensures ExtractedTree(es).Some? <==> exists k: nat :: FirstNamed(es, k)
    ensures ExtractedTree(es).Some? <==> exists i | 0 <= i < |es| :: NamedLevelDat(es[i])
    ensures forall k: nat | FirstNamed(es, k) ::
      es[k].path != [] && ExtractedTree(es).Some? && Represents(ExtractedTree(es).value, es, DirectoryOf(es[k]))
  {
    StreamingIsTwoPass(es);
    FirstLevelDatByName(es);
    hide ExtractedTree, Represents, FirstLevelDat, NamedLevelDat, RootOf, DirectoryOf, Treelike;
    forall k: nat | FirstNamed(es, k)
      ensures FirstLevelDat(es) == Some(k)
    {
    }
  }

  /** With a path repeated, a copy before the first level.dat stays, whatever copies follow. */
  lemma EarlierCopyStays(es: Archive, p: Path)
    requires ExtractedTree(es).Some?
    ensures FirstLevelDat(es).Some?
    ensures var k := FirstLevelDat(es).value;
      var early := NodeAt(es[..k], RootOf(es[k]) + p);
      early.File? ==> p in ExtractedTree(es).value && ExtractedTree(es).value[p] == early
  {
    ExtractionIsExact(es);
    hide ExtractedTree;
    var k := FirstLevelDat(es).value;
    var w, a, x := WantedOf(es[k..], RootOf(es[k])), es[..k], RootOf(es[k]) + p;
    MergedNode(w, a, x);
  }
}
