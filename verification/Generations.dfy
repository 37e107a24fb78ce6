/** Pruning stored world generations: each world keeps its newest ones. */
module Generations {
  import opened Options
  import opened Paths

  /** A listed object; times are in nanoseconds since the epoch. */
  datatype Object = Object(key: string, modified: int)

  /** The keys in the bucket and when each was last modified. */
  type Bucket = map<string, int>

  function Unix(modified: int): int { modified / 1_000_000_000 }

  predicate HasWorld(key: string) { '/' in key }

  function WorldOf(key: string): string { key[..IndexOfSlash(key)] }

  predicate Belongs(key: string, world: string) { HasWorld(key) && WorldOf(key) == world }

  /** Placeholder objects standing for directories are never listed. */
  predicate Listed(key: string) { !HasSuffix(key, "/") }

  function Listing(b: Bucket, prefix: string): set<string> {
    set key | key in b && Listed(key) && HasPrefix(key, prefix)
  }

  function GenerationsOf(b: Bucket, world: string): set<string> {
    set key | key in b && Listed(key) && Belongs(key, world)
  }

  predicate NoNewer(b: Bucket, olds: set<string>, news: set<string>)
    requires olds <= b.Keys && news <= b.Keys
  {
    forall o, n | o in olds && n in news :: Unix(b[o]) <= Unix(b[n])
  }

  /** Of the generations `gens` exactly `k` stay, or all if they are fewer, and none is older than one that goes. */
  ghost predicate KeepsNewest(b: Bucket, gens: set<string>, victims: set<string>, k: nat) {
    && gens <= b.Keys
    && |gens - victims| == (if |gens| <= k then |gens| else k)
    && NoNewer(b, gens * victims, gens - victims)
  }

  /** Removing `victims` prunes every world, and removes nothing but generations of worlds. */
  ghost predicate IsPruning(b: Bucket, victims: set<string>, k: nat) {
    && (forall key | key in victims :: key in b && Listed(key) && HasWorld(key))
    && (forall world :: KeepsNewest(b, GenerationsOf(b, world), victims, k))
  }

  /** `GetLatestWorldKey` may answer `key`. */
  predicate IsLatest(b: Bucket, world: string, key: string) {
    key in Listing(b, world + "/") && forall other | other in Listing(b, world + "/") :: Unix(b[other]) <= Unix(b[key])
  }

  // ---- what the names and the times mean ----

  /** A listed key begins with the prefix and does not end in a slash. */
  lemma ListingByName(b: Bucket, prefix: string, key: string)
    ensures key in Listing(b, prefix) <==> key in b && BeginsWith(key, prefix) && !EndsIn(key, "/")
  {
    PrefixAndSuffix(key, prefix);
    PrefixAndSuffix(key, "/");
  }

  /** A generation of a world has the world's name, which has no slash, in front of a slash, and does not end in one. */
  lemma GenerationByName(b: Bucket, world: string, key: string)
    ensures key in GenerationsOf(b, world) <==>
      key in b && '/' !in world && BeginsWith(key, world + "/") && !EndsIn(key, "/")
  {
    PrefixAndSuffix(key, "/");
    PrefixAndSuffix(key, world + "/");
    if '/' !in world {
      WorldOfPrefixed(world, key);
    }
    hide BeginsWith, EndsIn, HasSuffix, HasPrefix;
    assert Belongs(key, world) ==> '/' !in world;
  }

  /** What may be answered as the latest generation is no full second older than any other; */
  lemma LatestIsNewest(b: Bucket, world: string, key: string, other: string)
    requires IsLatest(b, world, key) && other in Listing(b, world + "/")
    ensures b[other] < b[key] + 1_000_000_000
  {
  }

  /** and of several from the same second any may be. */
  lemma LatestOfSameSecond(b: Bucket, world: string, key: string, other: string)
    requires IsLatest(b, world, key) && other in Listing(b, world + "/") && b[other] / 1_000_000_000 == b[key] / 1_000_000_000
    ensures IsLatest(b, world, other)
  {
  }

  /** Of each world as many generations stay as are to be preserved, or all of them if there are fewer. */
  lemma PruningKeepsCount(b: Bucket, victims: set<string>, k: nat, world: string)
    requires IsPruning(b, victims, k)
    ensures var gens := GenerationsOf(b, world); |gens - victims| == if |gens| <= k then |gens| else k
    ensures forall key | key in victims :: key in b && !EndsIn(key, "/") && '/' in key
  {
    assert KeepsNewest(b, GenerationsOf(b, world), victims, k);
    forall key | key in victims
      ensures !EndsIn(key, "/")
    {
      PrefixAndSuffix(key, "/");
    }
  }

  /** No generation stays that is a full second or more older than one of the same world that goes; */
  lemma PruningIsByAge(b: Bucket, victims: set<string>, k: nat, world: string, gone: string, stays: string)
    requires IsPruning(b, victims, k)
    requires gone in GenerationsOf(b, world) && gone in victims && stays in GenerationsOf(b, world) && stays !in victims
    ensures b[gone] < b[stays] + 1_000_000_000
  {
    assert KeepsNewest(b, GenerationsOf(b, world), victims, k);
    hide IsPruning, GenerationsOf;
    assert gone in GenerationsOf(b, world) * victims && stays in GenerationsOf(b, world) - victims;
  }

  /** and of two from the same second either may go. */
  lemma PruningIgnoresFractions(gone: string, stays: string, world: string)
    requires gone != stays && BeginsWith(gone, world + "/") && BeginsWith(stays, world + "/")
    requires '/' !in world && !EndsIn(gone, "/") && !EndsIn(stays, "/")
    ensures IsPruning(map[gone := 999_999_999, stays := 0], {gone}, 1)
  {
    var b: Bucket := map[gone := 999_999_999, stays := 0];
    hide BeginsWith, EndsIn, Belongs, Listed;
    forall w
      ensures KeepsNewest(b, GenerationsOf(b, w), {gone}, 1)
      ensures w == world ==> gone in GenerationsOf(b, w) && stays in GenerationsOf(b, w)
    {
      OfTwo(b, gone, stays, world, w);
    }
    GenerationByName(b, world, gone);
    assert HasWorld(gone) by {
      OneOfWorld(b, world, gone);
    }
  }

  lemma OneOfWorld(b: Bucket, world: string, key: string)
    requires key in GenerationsOf(b, world)
    ensures HasWorld(key) && Listed(key) && WorldOf(key) == world
  {
  }

  lemma OfTwo(b: Bucket, gone: string, stays: string, world: string, w: string)
    requires b == map[gone := 999_999_999, stays := 0] && gone != stays
    requires BeginsWith(gone, world + "/") && BeginsWith(stays, world + "/")
    requires '/' !in world && !EndsIn(gone, "/") && !EndsIn(stays, "/")
    ensures KeepsNewest(b, GenerationsOf(b, w), {gone}, 1)
    ensures w == world ==> gone in GenerationsOf(b, w) && stays in GenerationsOf(b, w)
  {
    GenerationByName(b, world, gone);
    GenerationByName(b, world, stays);
    OneOfWorld(b, world, gone);
    OneOfWorld(b, world, stays);
    hide BeginsWith, EndsIn, Listed, WorldOf;
    if w == world {
      assert GenerationsOf(b, w) == {gone, stays};
      assert {gone, stays} - {gone} == {stays};
    } else {
      assert GenerationsOf(b, w) == {};
      assert GenerationsOf(b, w) - {gone} == {};
    }
  }

  // ---- sequences of objects ----

  function Keys(objs: seq<Object>): set<string> { set i | 0 <= i < |objs| :: objs[i].key }

  predicate Distinct(objs: seq<Object>) {
    forall i, j | 0 <= i < j < |objs| :: objs[i].key != objs[j].key
  }

  predicate TakenFrom(objs: seq<Object>, b: Bucket) {
    forall i | 0 <= i < |objs| :: objs[i].key in b && objs[i].modified == b[objs[i].key]
  }

  predicate NewestFirst(objs: seq<Object>) {
    forall i, j | 0 <= i < j < |objs| :: Unix(objs[i].modified) >= Unix(objs[j].modified)
  }

  lemma KeysAt(objs: seq<Object>, i: nat)
    requires i < |objs|
    ensures objs[i].key in Keys(objs)
  {
  }

  lemma KeysAppend(objs: seq<Object>, o: Object)
    ensures Keys(objs + [o]) == Keys(objs) + {o.key}
    ensures Distinct(objs) && o.key !in Keys(objs) ==> Distinct(objs + [o])
  {
    var r := objs + [o];
    forall i | 0 <= i < |objs|
      ensures objs[i].key in Keys(r) && objs[i].key in Keys(objs)
    {
      KeysAt(r, i);
      assert r[i] == objs[i];
    }
    KeysAt(r, |objs|);
  }

  lemma {:induction false} KeysCount(objs: seq<Object>)
    requires Distinct(objs)
    ensures |Keys(objs)| == |objs|
  {
    if objs != [] {
      var n := |objs| - 1;
      KeysCount(objs[..n]);
      KeysAppend(objs[..n], objs[n]);
      assert objs == objs[..n] + [objs[n]];
      assert objs[n].key !in Keys(objs[..n]);
    }
  }

  function InsertedAt(objs: seq<Object>, at: nat, o: Object): (r: seq<Object>)
    requires at <= |objs|
    ensures |r| == |objs| + 1
    ensures r[at] == o && (forall j | 0 <= j < at :: r[j] == objs[j]) && forall j | at < j < |r| :: r[j] == objs[j - 1]
  {
    objs[..at] + [o] + objs[at..]
  }

  lemma InsertKeepsKeys(objs: seq<Object>, at: nat, o: Object)
    requires at <= |objs|
    ensures Keys(InsertedAt(objs, at, o)) == Keys(objs) + {o.key}
    ensures Distinct(objs) && o.key !in Keys(objs) ==> Distinct(InsertedAt(objs, at, o))
  {
    var r := InsertedAt(objs, at, o);
    forall i | 0 <= i < |objs|
      ensures objs[i].key in Keys(r) && objs[i].key in Keys(objs)
    {
      KeysAt(r, if i < at then i else i + 1);
    }
    KeysAt(r, at);
  }

  /** The listed objects of one world, in the order they were listed. */
  function OfWorld(objs: seq<Object>, world: string): seq<Object> {
    if objs == [] then []
    else
      var n := |objs| - 1;
      var before := OfWorld(objs[..n], world);
      if Belongs(objs[n].key, world) then before + [objs[n]] else before
  }

  function InWorld(keys: set<string>, world: string): set<string> {
    set key | key in keys && Belongs(key, world)
  }

  lemma {:induction false} OfWorldIsAll(objs: seq<Object>, world: string)
    requires Distinct(objs)
    ensures Distinct(OfWorld(objs, world))
    ensures Keys(OfWorld(objs, world)) == InWorld(Keys(objs), world)
    ensures forall o | o in OfWorld(objs, world) :: o in objs
  {
    if objs != [] {
      var n := |objs| - 1;
      var o := objs[n];
      OfWorldIsAll(objs[..n], world);
      KeysAppend(objs[..n], o);
      assert objs == objs[..n] + [o];
      assert o.key !in Keys(objs[..n]);
      KeysAppend(OfWorld(objs[..n], world), o);
    }
  }

  /** Any sorting by whole seconds; objects of the same second may end up in any order. */
  method SortNewestFirst(objs: seq<Object>) returns (sorted: seq<Object>)
    requires Distinct(objs)
    ensures NewestFirst(sorted) && Distinct(sorted) && Keys(sorted) == Keys(objs) && |sorted| == |objs|
    ensures forall o | o in sorted :: o in objs
  {
    sorted := [];
    for i := 0 to |objs|
      invariant NewestFirst(sorted) && |sorted| == i
      invariant forall o | o in sorted :: o in objs
      invariant Keys(sorted) == Keys(objs[..i]) && Distinct(sorted)
    {
      hide Keys, Distinct, NewestFirst;
      var at := Place(sorted, objs[i].modified);
      FreshKey(objs, i);
      InsertKeepsKeys(sorted, at, objs[i]);
      InsertKeepsOrder(sorted, at, objs[i]);
      KeysAppend(objs[..i], objs[i]);
      assert objs[..i + 1] == objs[..i] + [objs[i]];
      sorted := InsertedAt(sorted, at, objs[i]);
    }
    assert objs[..|objs|] == objs;
  }

  method Place(sorted: seq<Object>, modified: int) returns (at: nat)
    requires NewestFirst(sorted)
    ensures at <= |sorted|
    ensures forall j | 0 <= j < at :: Unix(sorted[j].modified) >= Unix(modified)
    ensures forall j | at <= j < |sorted| :: Unix(sorted[j].modified) <= Unix(modified)
  {
    at := 0;
    while at < |sorted| && Unix(sorted[at].modified) >= Unix(modified)
      invariant at <= |sorted|
      invariant forall j | 0 <= j < at :: Unix(sorted[j].modified) >= Unix(modified)
    {
      at := at + 1;
    }
  }

  lemma FreshKey(objs: seq<Object>, i: nat)
    requires Distinct(objs) && i < |objs|
    ensures objs[i].key !in Keys(objs[..i])
  {
  }

  lemma InsertKeepsOrder(objs: seq<Object>, at: nat, o: Object)
    requires NewestFirst(objs) && at <= |objs|
    requires forall j | 0 <= j < at :: Unix(objs[j].modified) >= Unix(o.modified)
    requires forall j | at <= j < |objs| :: Unix(objs[j].modified) <= Unix(o.modified)
    ensures NewestFirst(InsertedAt(objs, at, o))
    ensures forall p | p in InsertedAt(objs, at, o) :: p == o || p in objs
  {
  }

  // ---- the service ----

  class WorldService {
    var bucket: Bucket

    constructor (bucket: Bucket)
      ensures this.bucket == bucket
    {
      this.bucket := bucket;
    }

    method ListObjects(prefix: string) returns (objs: seq<Object>)
      ensures Distinct(objs) && TakenFrom(objs, bucket) && Keys(objs) == Listing(bucket, prefix)
    {
      hide Listed, HasPrefix;
      objs := [];
      var rest := bucket.Keys;
      while rest != {}
        invariant rest <= bucket.Keys
        invariant Distinct(objs) && TakenFrom(objs, bucket)
        invariant Keys(objs) == Listing(bucket, prefix) - rest
        decreases |rest|
      {
        var key :| key in rest;
        rest := rest - {key};
        if HasPrefix(key, prefix) && Listed(key) {
          hide Keys, Distinct, Listed, HasPrefix;
          KeysAppend(objs, Object(key, bucket[key]));
          objs := objs + [Object(key, bucket[key])];
        }
      }
    }

    /** Removes the keys, except those the storage refuses to remove; a refusal may go unreported. */
    method DeleteObjects(keys: set<string>, refused: set<string>) returns (ok: bool)
      modifies this
      ensures bucket == old(bucket) - (keys - refused)
      ensures keys !! refused ==> ok
    {
      bucket := bucket - (keys - refused);
      if keys * refused == {} {
        ok := true;
      } else {
        ok := *;
      }
    }

    method GetLatestWorldKey(world: string) returns (latest: Option<string>)
      ensures latest.None? <==> Listing(bucket, world + "/") == {}
      ensures latest.Some? ==> IsLatest(bucket, world, latest.value)
    {
      var objs := ListObjects(world + "/");
      if |objs| == 0 {
        return None;
      }
      KeysAt(objs, 0);
      var sorted := SortNewestFirst(objs);
      SameTaken(bucket, objs, sorted);
      FirstIsNewest(bucket, sorted);
      latest := Some(sorted[0].key);
    }

    method PruneSlice(objs: seq<Object>, preserveCount: nat, refused: set<string>) returns (ok: bool, ghost victims: set<string>)
      requires Distinct(objs) && TakenFrom(objs, bucket)
      modifies this
      ensures victims <= Keys(objs) <= old(bucket.Keys)
      ensures KeepsNewest(old(bucket), Keys(objs), victims, preserveCount)
      ensures bucket == old(bucket) - (victims - refused)
      ensures victims !! refused ==> ok
    {
      hide Keys, KeepsNewest;
      if |objs| <= preserveCount {
        victims := {};
        KeepsAll(bucket, objs, preserveCount);
        return true, victims;
      }
      var sorted := SortNewestFirst(objs);
      SameTaken(bucket, objs, sorted);
      SplitKeepsNewest(bucket, sorted, preserveCount);
      victims := Keys(sorted[preserveCount..]);
      ok := DeleteObjects(Keys(sorted[preserveCount..]), refused);
    }

    /** Prunes every world, in any order of the worlds; what is refused stays. */
    method Prune(preserveCount: nat, refused: set<string>) returns (ok: bool, ghost victims: set<string>)
      modifies this
      ensures IsPruning(old(bucket), victims, preserveCount)
      ensures bucket == old(bucket) - (victims - refused)
      ensures victims !! refused ==> ok
    {
      hide *;
      ghost var before := bucket;
      var objs := ListObjects("");
      var groups := GroupByPrefix(objs);
      var worlds := groups.Keys;
      ok, victims := true, {};
      NothingPruned(before, preserveCount);
      assert groups.Keys - worlds == {};
      RemovedTogether(before, {}, {}, refused);
      while worlds != {}
        invariant worlds <= groups.Keys
        invariant IsPruningOf(before, groups.Keys - worlds, victims, preserveCount)
        invariant bucket == before - (victims - refused)
        invariant victims !! refused ==> ok
        decreases |worlds|
      {
        hide *;
        var world :| world in worlds;
        GroupIsWorld(before, objs, groups, world);
        StillTaken(before, groups[world], world, groups.Keys - worlds, victims, refused, preserveCount);
        var done, gone := PruneSlice(groups[world], preserveCount, refused);
        KeepsNewestIsLocal(before, victims - refused, GenerationsOf(before, world), gone, preserveCount);
        OneMorePruned(before, world, groups.Keys - worlds, victims, gone, preserveCount);
        assert groups.Keys - (worlds - {world}) == groups.Keys - worlds + {world};
        RemovedTogether(before, victims, gone, refused);
        ok := ok && done;
        victims := victims + gone;
        worlds := worlds - {world};
      }
      assert groups.Keys - worlds == groups.Keys;
      AllPruned(before, objs, groups, victims, preserveCount);
    }
  }

  /** Each world that occurs has its objects, in the order they were listed. */
  ghost predicate IsGrouping(objs: seq<Object>, groups: map<string, seq<Object>>) {
    && (forall world :: world in groups <==> OfWorld(objs, world) != [])
    && (forall world | world in groups :: groups[world] == OfWorld(objs, world))
  }

  method GroupByPrefix(objs: seq<Object>) returns (groups: map<string, seq<Object>>)
    ensures IsGrouping(objs, groups)
  {
    groups := map[];
    for i := 0 to |objs|
      invariant IsGrouping(objs[..i], groups)
    {
      assert objs[..i + 1] == objs[..i] + [objs[i]];
      OfWorldAppend(objs[..i], objs[i]);
      hide OfWorld, WorldOf;
      if HasWorld(objs[i].key) {
        var world := WorldOf(objs[i].key);
        groups := groups[world := (if world in groups then groups[world] else []) + [objs[i]]];
      }
    }
    assert objs[..|objs|] == objs;
  }

  lemma OfWorldAppend(objs: seq<Object>, o: Object)
    ensures forall world :: OfWorld(objs + [o], world) == OfWorld(objs, world) + (if Belongs(o.key, world) then [o] else [])
  {
    assert (objs + [o])[..|objs|] == objs;
  }

  // ---- splitting a sorted listing ----

  lemma SplitKeys(objs: seq<Object>, k: nat)
    requires Distinct(objs) && k <= |objs|
    ensures Keys(objs) - Keys(objs[k..]) == Keys(objs[..k])
    ensures Keys(objs[k..]) <= Keys(objs) && |Keys(objs[..k])| == k
  {
    KeysCount(objs[..k]);
    forall i | 0 <= i < |objs|
      ensures i < k ==> objs[i].key in Keys(objs[..k]) && objs[i].key !in Keys(objs[k..])
      ensures i >= k ==> objs[i].key in Keys(objs[k..])
    {
      if i < k {
        assert objs[i] == objs[..k][i];
      } else {
        assert objs[i] == objs[k..][i - k];
      }
    }
  }

  lemma SameTaken(b: Bucket, objs: seq<Object>, sorted: seq<Object>)
    requires TakenFrom(objs, b) && forall o | o in sorted :: o in objs
    ensures TakenFrom(sorted, b)
  {
    forall i | 0 <= i < |sorted|
      ensures sorted[i].key in b && sorted[i].modified == b[sorted[i].key]
    {
      assert sorted[i] in objs;
      var j :| 0 <= j < |objs| && objs[j] == sorted[i];
    }
  }

  lemma FirstIsNewest(b: Bucket, sorted: seq<Object>)
    requires TakenFrom(sorted, b) && NewestFirst(sorted) && sorted != []
    ensures sorted[0].key in Keys(sorted)
    ensures forall key | key in Keys(sorted) :: key in b && Unix(b[key]) <= Unix(b[sorted[0].key])
  {
    KeysAt(sorted, 0);
  }

  lemma KeepsAll(b: Bucket, objs: seq<Object>, k: nat)
    requires Distinct(objs) && TakenFrom(objs, b) && |objs| <= k
    ensures Keys(objs) <= b.Keys && KeepsNewest(b, Keys(objs), {}, k)
  {
    KeysCount(objs);
    assert Keys(objs) - {} == Keys(objs);
  }

  lemma SplitKeepsNewest(b: Bucket, objs: seq<Object>, k: nat)
    requires Distinct(objs) && NewestFirst(objs) && TakenFrom(objs, b) && k < |objs|
    ensures Keys(objs[k..]) <= Keys(objs) <= b.Keys
    ensures KeepsNewest(b, Keys(objs), Keys(objs[k..]), k)
  {
    KeysCount(objs);
    SplitKeys(objs, k);
    var olds, news := Keys(objs[k..]), Keys(objs[..k]);
    assert Keys(objs) * olds == olds;
    forall o, n | o in olds && n in news
      ensures Unix(b[o]) <= Unix(b[n])
    {
      var i :| 0 <= i < |objs[k..]| && objs[k..][i].key == o;
      var j :| 0 <= j < |objs[..k]| && objs[..k][j].key == n;
      assert objs[k + i].key == o && objs[j].key == n;
    }
  }

  // ---- pruning one world after the other ----

  /** The worlds in `done` have been pruned and no other. */
  ghost predicate IsPruningOf(b: Bucket, done: set<string>, victims: set<string>, k: nat) {
    && (forall key | key in victims :: key in b && Listed(key) && HasWorld(key) && WorldOf(key) in done)
    && (forall world | world in done :: KeepsNewest(b, GenerationsOf(b, world), victims, k))
  }

  lemma NothingPruned(b: Bucket, k: nat)
    ensures IsPruningOf(b, {}, {}, k)
  {
  }

  /** The group of a world holds its listed generations. */
  lemma GroupIsWorld(b: Bucket, objs: seq<Object>, groups: map<string, seq<Object>>, world: string)
    requires Distinct(objs) && TakenFrom(objs, b) && Keys(objs) == Listing(b, "")
    requires IsGrouping(objs, groups)
    ensures world in groups ==> groups[world] == OfWorld(objs, world)
    ensures world !in groups ==> OfWorld(objs, world) == []
    ensures Distinct(OfWorld(objs, world)) && TakenFrom(OfWorld(objs, world), b)
    ensures Keys(OfWorld(objs, world)) == GenerationsOf(b, world)
  {
    OfWorldIsAll(objs, world);
    SameTaken(b, objs, OfWorld(objs, world));
    hide OfWorld, Keys, Listed, Belongs;
    assert InWorld(Listing(b, ""), world) == GenerationsOf(b, world);
  }

  lemma StillTaken(b: Bucket, group: seq<Object>, world: string, done: set<string>, victims: set<string>, refused: set<string>, k: nat)
    requires TakenFrom(group, b) && Keys(group) == GenerationsOf(b, world)
    requires world !in done && IsPruningOf(b, done, victims, k)
    ensures TakenFrom(group, b - (victims - refused))
  {
    forall i | 0 <= i < |group|
      ensures group[i].key !in victims
    {
      KeysAt(group, i);
    }
  }

  lemma RemovedTogether(b: Bucket, victims: set<string>, more: set<string>, refused: set<string>)
    ensures b - (victims - refused) - (more - refused) == b - (victims + more - refused)
    ensures victims + more == {} ==> b - (victims - refused) == b
  {
  }

  lemma KeepsNewestIsLocal(b: Bucket, removed: set<string>, gens: set<string>, victims: set<string>, k: nat)
    requires KeepsNewest(b - removed, gens, victims, k)
    ensures KeepsNewest(b, gens, victims, k)
  {
  }

  lemma OneMorePruned(b: Bucket, world: string, done: set<string>, victims: set<string>, gone: set<string>, k: nat)
    requires world !in done && IsPruningOf(b, done, victims, k)
    requires gone <= GenerationsOf(b, world) && KeepsNewest(b, GenerationsOf(b, world), gone, k)
    ensures IsPruningOf(b, done + {world}, victims + gone, k)
  {
    hide Listed, WorldOf, KeepsNewest;
    forall w | w in done + {world}
      ensures KeepsNewest(b, GenerationsOf(b, w), victims + gone, k)
    {
      var gens := GenerationsOf(b, w);
      var mine := if w == world then gone else victims;
      SameVictims(b, gens, mine, victims + gone, k);
    }
  }

  lemma SameVictims(b: Bucket, gens: set<string>, victims: set<string>, more: set<string>, k: nat)
    requires KeepsNewest(b, gens, victims, k) && gens * victims == gens * more
    ensures KeepsNewest(b, gens, more, k)
  {
    assert gens - victims == gens - gens * victims == gens - gens * more == gens - more;
  }

  lemma AllPruned(b: Bucket, objs: seq<Object>, groups: map<string, seq<Object>>, victims: set<string>, k: nat)
    requires Distinct(objs) && TakenFrom(objs, b) && Keys(objs) == Listing(b, "")
    requires IsGrouping(objs, groups) && IsPruningOf(b, groups.Keys, victims, k)
    ensures IsPruning(b, victims, k)
  {
    hide OfWorld, Keys, KeepsNewest, GenerationsOf, Listed, WorldOf;
    forall world
      ensures KeepsNewest(b, GenerationsOf(b, world), victims, k)
    {
      if world !in groups {
        GroupIsWorld(b, objs, groups, world);
        NoGenerations(b, objs, world, victims, k);
      }
    }
  }

  lemma NoGenerations(b: Bucket, objs: seq<Object>, world: string, victims: set<string>, k: nat)
    requires OfWorld(objs, world) == [] && Keys(OfWorld(objs, world)) == GenerationsOf(b, world)
    ensures KeepsNewest(b, GenerationsOf(b, world), victims, k)
  {
    hide OfWorld, Listed, Belongs;
    var none: seq<Object> := [];
    assert Keys(none) == {};
    assert GenerationsOf(b, world) - victims == {};
  }

  // ---- the latest generation after pruning ----

  lemma {:induction false} SlashAfter(world: string, rest: string)
    requires '/' !in world
    ensures IndexOfSlash(world + "/" + rest) == |world|
  {
    if world != "" {
      SlashAfter(world[1..], rest);
      assert (world + "/" + rest)[1..] == world[1..] + "/" + rest;
    }
  }

  lemma {:induction false} SlashFound(key: string)
    requires '/' in key
    ensures IndexOfSlash(key) < |key|
  {
    if key[0] != '/' {
      assert key == [key[0]] + key[1..];
      SlashFound(key[1..]);
    }
  }

  lemma WorldOfPrefixed(world: string, key: string)
    requires '/' !in world
    ensures HasPrefix(key, world + "/") <==> Belongs(key, world)
  {
    hide IndexOfSlash;
    if HasPrefix(key, world + "/") {
      assert key == world + "/" + key[|world| + 1..];
      SlashAfter(world, key[|world| + 1..]);
      assert key[|world|] == '/';
      assert key[..|world|] == world;
    }
    if Belongs(key, world) {
      SlashFound(key);
      assert key[..|world| + 1] == key[..|world|] + "/";
    }
  }

  predicate SameSecond(b: Bucket, key: string, now: string) {
    key in b && now in b && Unix(b[key]) == Unix(b[now])
  }

  /** For a world name without a slash, pruning to at least one generation keeps the time of the latest one, in whole seconds. */
  lemma LatestIsAsNew(b: Bucket, victims: set<string>, k: nat, world: string, key: string, now: string)
    requires IsPruning(b, victims, k) && k >= 1 && '/' !in world
    requires IsLatest(b, world, key) && IsLatest(b - victims, world, now)
    ensures SameSecond(b, key, now)
  {
    hide Listing, GenerationsOf, KeepsNewest, Unix;
    ListingIsWorld(b, world);
    ListingIsWorld(b - victims, world);
    var gens := GenerationsOf(b, world);
    StayingGenerations(b, victims, world);
    assert KeepsNewest(b, gens, victims, k);
    hide IsPruning;
    assert key in gens && now in gens - victims;
    SameNewest(b, gens, victims, k, key, now);
  }

  lemma StayingGenerations(b: Bucket, victims: set<string>, world: string)
    ensures GenerationsOf(b - victims, world) == GenerationsOf(b, world) - victims
    ensures GenerationsOf(b, world) <= b.Keys
  {
    hide Listed, Belongs;
  }

  /**
   For a world name without a slash, pruning to at least one generation changes neither whether
   there is a latest generation nor its time in whole seconds.
   */
  lemma LatestSurvives(b: Bucket, victims: set<string>, k: nat, world: string)
    requires IsPruning(b, victims, k) && k >= 1 && '/' !in world
    ensures Listing(b, world + "/") == {} <==> Listing(b - victims, world + "/") == {}
    ensures forall key, now | IsLatest(b, world, key) && IsLatest(b - victims, world, now) :: SameSecond(b, key, now)
  {
    hide Listing, GenerationsOf, KeepsNewest, IsLatest, Unix;
    ListingIsWorld(b, world);
    ListingIsWorld(b - victims, world);
    StayingGenerations(b, victims, world);
    assert KeepsNewest(b, GenerationsOf(b, world), victims, k);
    hide IsPruning;
    SomethingStays(b, GenerationsOf(b, world), victims, k);
    forall key, now | IsLatest(b, world, key) && IsLatest(b - victims, world, now)
      ensures SameSecond(b, key, now)
    {
      LatestIsAsNew(b, victims, k, world, key, now);
    }
  }

  lemma SomethingStays(b: Bucket, gens: set<string>, victims: set<string>, k: nat)
    requires k >= 1 && KeepsNewest(b, gens, victims, k)
    ensures gens == {} <==> gens - victims == {}
  {
  }

  lemma SameNewest(b: Bucket, gens: set<string>, victims: set<string>, k: nat, key: string, now: string)
    requires KeepsNewest(b, gens, victims, k) && key in gens && now in gens - victims
    requires forall o | o in gens :: Unix(b[o]) <= Unix(b[key])
    requires forall o | o in gens - victims :: Unix(b[o]) <= Unix(b[now])
    ensures Unix(b[now]) == Unix(b[key])
  {
    if key in victims {
      assert key in gens * victims;
    } else {
      assert key in gens - victims;
    }
  }

  lemma ListingIsWorld(b: Bucket, world: string)
    requires '/' !in world
    ensures Listing(b, world + "/") == GenerationsOf(b, world)
  {
    forall key | key in b
      ensures HasPrefix(key, world + "/") <==> Belongs(key, world)
    {
      hide *;
      WorldOfPrefixed(world, key);
    }
  }

  /** The latest generation of `world` survives every pruning of every bucket. */
  ghost predicate LatestAlwaysSurvives(world: string) {
    forall b: Bucket, victims, k: nat | IsPruning(b, victims, k) && k >= 1 && Listing(b, world + "/") != {} ::
      Listing(b - victims, world + "/") != {}
  }

  /**
   With a slash in its name, a world is listed by its whole name but pruned by its first
   component only, together with others, so its last generation can go.
   */
  lemma LatestSurvivesExactlyForPlainNames(world: string)
    ensures LatestAlwaysSurvives(world) <==> '/' !in world
  {
    if '/' in world {
      NestedWorldIsLost(world);
    } else {
      forall b: Bucket, victims, k: nat | IsPruning(b, victims, k) && k >= 1 && Listing(b, world + "/") != {}
        ensures Listing(b - victims, world + "/") != {}
      {
        LatestSurvives(b, victims, k, world);
      }
    }
  }

  lemma NestedWorldIsLost(world: string)
    requires '/' in world
    ensures !LatestAlwaysSurvives(world)
  {
    var nested := world + "/x";
    var newer := WorldOf(world) + "/y";
    var b: Bucket := map[nested := 0, newer := 1_000_000_000];
    NestedKeys(world);
    hide Listed, WorldOf, HasPrefix, Belongs;
    assert IsPruning(b, {nested}, 1) by {
      forall w
        ensures KeepsNewest(b, GenerationsOf(b, w), {nested}, 1)
      {
        if w == WorldOf(world) {
          assert GenerationsOf(b, w) == {nested, newer};
          assert {nested, newer} - {nested} == {newer};
        } else {
          assert GenerationsOf(b, w) == {};
          assert GenerationsOf(b, w) - {nested} == {};
        }
      }
    }
    assert nested in Listing(b, world + "/");
    assert Listing(b - {nested}, world + "/") == {};
  }

  lemma NestedKeys(world: string)
    requires '/' in world
    ensures var nested, newer := world + "/x", WorldOf(world) + "/y";
      && Listed(nested) && Belongs(nested, WorldOf(world)) && HasPrefix(nested, world + "/")
      && Listed(newer) && Belongs(newer, WorldOf(world)) && !HasPrefix(newer, world + "/")
      && nested != newer
  {
    hide IndexOfSlash;
    var first := WorldOf(world);
    SlashFound(world);
    var rest := world[|first| + 1..];
    assert world == first + "/" + rest;
    assert world + "/x" == first + "/" + (rest + "/x");
    SlashAfter(first, rest + "/x");
    SlashAfter(first, "y");
    assert first + "/y" == first + "/" + "y";
    assert (first + "/y")[..|first|] == first == (first + "/" + (rest + "/x"))[..|first|];
    assert (first + "/y")[|first|] == '/' == (first + "/" + (rest + "/x"))[|first|];
    if rest == "" {
      assert (world + "/")[|first| + 1] == '/' && (first + "/y")[|first| + 1] == 'y';
    }
    assert (world + "/x")[..|world| + 1] == world + "/";
  }
}
