/**
 Slash-separated names as archives write them, and the component paths they stand for. The prefix
 tests of the extractor are string tests; the lemmas here say what they mean for components.
 */
module Paths {
  type Name = s: string | s != "" && s != "." && s != ".." && '/' !in s witness "a"
  type Path = seq<Name>

  function Parent(p: Path): Path
    requires p != []
  {
    p[..|p| - 1]
  }

  /** The string form of a path, with a trailing slash if `slash`. */
  function Spell(p: Path, slash: bool): string {
    if p == [] then ""
    else if |p| == 1 then p[0] + (if slash then "/" else "")
    else p[0] + "/" + Spell(p[1..], slash)
  }

  /** The string every path below `r` starts with. */
  function Below(r: Path): string {
    if r == [] then "" else r[0] + "/" + Below(r[1..])
  }

  predicate HasPrefix(s: string, prefix: string) { prefix <= s }

  function TrimPrefix(s: string, prefix: string): string {
    if HasPrefix(s, prefix) then s[|prefix|..] else s
  }

  predicate HasSuffix(s: string, suffix: string) {
    |suffix| <= |s| && s[|s| - |suffix|..] == suffix
  }

  ghost predicate BeginsWith(s: string, start: string) { exists rest :: s == start + rest }

  ghost predicate EndsIn(s: string, end: string) { exists stem :: s == stem + end }

  /** The tests of the library mean what they say. */
  lemma PrefixAndSuffix(s: string, t: string)
    ensures HasPrefix(s, t) <==> BeginsWith(s, t)
    ensures HasSuffix(s, t) <==> EndsIn(s, t)
  {
    if HasPrefix(s, t) {
      assert s == t + s[|t|..];
    }
    if HasSuffix(s, t) {
      assert s == s[..|s| - |t|] + t;
    }
  }

  function TrimSuffix(s: string, suffix: string): string {
    if HasSuffix(s, suffix) then s[..|s| - |suffix|] else s
  }

  function IndexOfSlash(s: string): (i: nat)
    ensures i <= |s| && (i < |s| ==> s[i] == '/')
    ensures '/' !in s[..i]
  {
    if s == "" || s[0] == '/' then 0
    else
      var i := IndexOfSlash(s[1..]);
      assert s[..i + 1] == [s[0]] + s[1..][..i];
      i + 1
  }

  /** No component of the name leads out of its directory. */
  predicate Inward(s: string)
    decreases |s|
  {
    s == "" ||
    var i := IndexOfSlash(s);
    s[..i] != ".." && (i < |s| ==> Inward(s[i + 1..]))
  }

  /** The components `filepath.Join` keeps of a name without "..". */
  function Components(s: string): Path
    requires Inward(s)
    decreases |s|
  {
    if s == "" then []
    else
      var i := IndexOfSlash(s);
      var others := if i < |s| then Components(s[i + 1..]) else [];
      if i == 0 || s[..i] == "." then others else [s[..i]] + others
  }

  lemma {:induction false} IndexOfSlashAfter(a: string, s: string)
    requires '/' !in a && (s == "" || s[0] == '/')
    ensures IndexOfSlash(a + s) == |a|
  {
    if a == "" {
      assert a + s == s;
    } else {
      assert (a + s)[1..] == a[1..] + s;
      IndexOfSlashAfter(a[1..], s);
    }
  }

  lemma {:induction false} ComponentsOfSpelling(p: Path, slash: bool)
    ensures Inward(Spell(p, slash)) && Components(Spell(p, slash)) == p
  {
    if |p| == 1 {
      IndexOfSlashAfter(p[0], if slash then "/" else "");
    } else if |p| > 1 {
      var others: string := "/" + Spell(p[1..], slash);
      assert Spell(p, slash) == p[0] + others;
      IndexOfSlashAfter(p[0], others);
      assert (p[0] + others)[|p[0]| + 1..] == Spell(p[1..], slash);
      ComponentsOfSpelling(p[1..], slash);
    }
  }

  lemma ConcatPrefix(a: string, x: string, y: string)
    ensures HasPrefix(a + x, a + y) <==> HasPrefix(x, y)
    ensures HasPrefix(x, y) ==> TrimPrefix(a + x, a + y) == TrimPrefix(x, y)
  {
    assert (a + x)[|a|..] == x;
    if HasPrefix(x, y) {
      assert x == y + x[|y|..];
      assert a + x == a + y + x[|y|..];
    }
    if HasPrefix(a + x, a + y) {
      assert (a + x)[..|a| + |y|] == a + y;
      assert (a + x)[..|a| + |y|][|a|..] == x[..|y|];
    }
  }

  /** A name starting with a component starts with another one and a slash only if they are the same. */
  lemma FirstComponent(a: Name, x: string, b: Name, y: string)
    requires x == "" || x[0] == '/'
    requires HasPrefix(a + x, b + "/" + y)
    ensures a == b
  {
    var s, t := a + x, b + "/" + y;
    var later := "/" + y + s[|t|..];
    assert s == t + s[|t|..];
    assert s == b + later;
    IndexOfSlashAfter(a, x);
    IndexOfSlashAfter(b, later);
    assert s[..|a|] == a && s[..|b|] == b;
  }

  /**
   The string test for "below `r`": the path has `r` as a component prefix and, if it is `r`
   itself, is spelled with its slash; what is left then spells the components behind `r`.
   */
  lemma {:induction false} BelowIsPrefixTest(r: Path, p: Path, slash: bool)
    ensures HasPrefix(Spell(p, slash), Below(r)) <==> r <= p && (r == p ==> slash || r == [])
    ensures r <= p && HasPrefix(Spell(p, slash), Below(r)) ==> TrimPrefix(Spell(p, slash), Below(r)) == Spell(p[|r|..], slash)
  {
    if r == [] {
      assert p[0..] == p;
    } else if p != [] {
      if HasPrefix(Spell(p, slash), Below(r)) {
        FirstComponent(p[0], Behind(p, slash), r[0], Below(r[1..]));
      }
      if p[0] == r[0] {
        BelowIsPrefixTest(r[1..], p[1..], slash);
        assert p == [p[0]] + p[1..] && r == [r[0]] + r[1..];
        assert Below(r) == p[0] + ("/" + Below(r[1..]));
        ConcatPrefix(p[0], Behind(p, slash), "/" + Below(r[1..]));
        if Behind(p, slash) != "" {
          assert Behind(p, slash) == "/" + Spell(p[1..], slash);
          ConcatPrefix("/", Spell(p[1..], slash), Below(r[1..]));
        }
      }
    }
  }

  /** What follows the first component of a spelled path. */
  function Behind(p: Path, slash: bool): (x: string)
    requires p != []
    ensures x == "" || x[0] == '/'
    ensures Spell(p, slash) == p[0] + x
    ensures x == "" <==> |p| == 1 && !slash
    ensures x != "" ==> x == "/" + Spell(p[1..], slash)
  {
    if |p| == 1 then if slash then "/" else "" else "/" + Spell(p[1..], slash)
  }

  lemma {:induction false} SpelledWithSlash(p: Path)
    ensures Spell(p, true) == Below(p)
  {
    if |p| > 1 {
      SpelledWithSlash(p[1..]);
    } else if |p| == 1 {
      assert Below(p[1..]) == "";
    }
  }

  /** Cutting the last component off a spelled path leaves what everything beside it starts with. */
  lemma {:induction false} LastComponent(p: Path)
    requires p != []
    ensures Spell(p, false) == Below(p[..|p| - 1]) + p[|p| - 1]
  {
    if |p| > 1 {
      LastComponent(p[1..]);
      assert p[..|p| - 1] == [p[0]] + p[1..][..|p| - 2];
      var others: string, above: string, last: string := Spell(p[1..], false), Below(p[1..][..|p| - 2]), p[|p| - 1];
      assert p[0] + "/" + (above + last) == p[0] + "/" + above + last;
    }
  }

  lemma TrimSuffixOfLast(p: Path, slash: bool, last: Name)
    requires p != [] && p[|p| - 1] == last
    ensures TrimSuffix(Spell(p, slash), last) == Below(if slash then p else p[..|p| - 1])
  {
    if slash {
      SpelledWithSlash(p);
      EndsInSlash(p);
      var s := Below(p);
      assert last[|last| - 1] != '/';
      assert |last| <= |s| ==> s[|s| - |last|..][|last| - 1] == s[|s| - 1];
    } else {
      LastComponent(p);
    }
  }

  /** A path's last component is what follows the last slash of its name. */
  lemma LastInName(p: Path, last: Name)
    ensures (p != [] && p[|p| - 1] == last) <==> EndsIn("/" + Spell(p, false), "/" + last)
  {
    hide Spell, Below;
    if p != [] {
      var u := AboveLast(p);
      LastAfter(u, p[|p| - 1], last);
    } else {
      NothingInName(last);
    }
  }

  lemma AboveLast(p: Path) returns (u: string)
    requires p != []
    ensures u != "" && u[|u| - 1] == '/' && "/" + Spell(p, false) == u + p[|p| - 1]
  {
    var front := p[..|p| - 1];
    LastComponent(p);
    if front != [] {
      EndsInSlash(front);
    }
    hide Spell;
    u := "/" + Below(front);
  }

  lemma NothingInName(last: Name)
    ensures !EndsIn("/" + Spell([], false), "/" + last)
  {
    forall stem: string
      ensures "/" + Spell([], false) != stem + ("/" + last)
    {
      assert |stem + ("/" + last)| == |stem| + 1 + |last|;
    }
  }

  lemma LastAfter(u: string, a: Name, b: Name)
    requires u != "" && u[|u| - 1] == '/'
    ensures a == b <==> EndsIn(u + a, "/" + b)
  {
    if a == b {
      assert u == u[..|u| - 1] + "/";
      assert u + a == u[..|u| - 1] + ("/" + b);
    }
    if stem :| u + a == stem + ("/" + b) {
      assert u + a == stem + "/" + b;
      NotLonger(u, a, stem + "/", b);
      NotLonger(stem + "/", b, u, a);
      assert (u + a)[|u|..] == a && (stem + "/" + b)[|u|..] == b;
    }
  }

  lemma NotLonger(u: string, a: string, w: string, b: string)
    requires u + a == w + b && u != "" && u[|u| - 1] == '/' && '/' !in b
    ensures |u| <= |w|
  {
    assert (u + a)[|u| - 1] == '/';
    assert forall i | |w| <= i < |w + b| :: (w + b)[i] in b;
  }

  lemma EndsInSlash(p: Path)
    requires p != []
    ensures Below(p) != "" && Below(p)[|Below(p)| - 1] == '/'
  {
    if |p| > 1 {
      EndsInSlash(p[1..]);
    }
  }
}
