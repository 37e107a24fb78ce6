/**
 The world kept on the runner's disk between launches. A state entry names the remote generation
 it equals; a launch that asks for that generation skips the download. The machine below takes
 every step of a launch separately, so that a launch can fail, or the process die, between any two.
 */
module WorldCache {
  import opened Options
  import opened Paths
  import opened Trees
  import opened Extraction
  import opened WorldArchive

  /** A directory tree on disk; empty if there is none. */
  type World = t: Tree | Closed(t) witness map[]
  type Key = string

  /** A stored generation: its archive, and when it was stored. */
  datatype Generation = Generation(archive: Archive, modified: int)

  const WORLD_KEY := "github.com/kofuk/premises/runner/mclauncher/middleware/world.WorldKey"
  const LATEST := "@/latest"
  const WORLD_DIR: Name := "world"

  /** How far a launch has come; `Idle` between launches. `fetched` is the archive that was downloaded, if one was. */
  datatype Phase =
    | Idle
    | Chosen(isNew: bool, id: Key, oldId: Key)
    | Dropped(isNew: bool, id: Key, oldId: Key)
    | Cleaned(isNew: bool, id: Key)
    | Ready(isNew: bool, id: Key, fetched: Option<Archive>)
    | Running
    | Finished
    | Uploaded(key: Key)

  /** `uploads` holds every key under which a launch has stored a generation. */
  datatype Sys = Sys(
    store: map<string, string>, disk: World, remote: map<Key, Generation>, uploads: set<Key>, phase: Phase)

  /** A state repository answers a missing key with the empty string. */
  function GetState(store: map<string, string>, key: string): string {
    if key in store then store[key] else ""
  }

  // ---- the steps of a launch ----

  predicate Resolve(s: Sys, t: Sys) {
    && s.phase.Idle? && t.phase.Chosen? && t == s.(phase := t.phase)
    && (t.phase.isNew ==> t.phase.id == "" && t.phase.oldId == "")
    // A failing GetState counts as no key.
    && (t.phase.oldId == "" || t.phase.oldId == GetState(s.store, WORLD_KEY))
  }

  /** Dropping the key; only if the store is reliable does it always take effect. */
  predicate Drop(s: Sys, t: Sys, reliable: bool) {
    && s.phase.Chosen?
    && var next := Dropped(s.phase.isNew, s.phase.id, s.phase.oldId);
       t == s.(phase := next, store := s.store - {WORLD_KEY}) || (!reliable && t == s.(phase := next))
  }

  predicate MustClean(p: Phase)
    requires p.Dropped?
  {
    p.isNew || p.id != p.oldId
  }

  predicate Clean(s: Sys, t: Sys) {
    && s.phase.Dropped? && MustClean(s.phase)
    && t == s.(phase := Cleaned(s.phase.isNew, s.phase.id), disk := map[])
  }

  predicate SkipDownload(s: Sys, t: Sys) {
    && s.phase.Dropped? && !MustClean(s.phase)
    && t == s.(phase := Ready(false, s.phase.id, None))
  }

  /** A download gets through if the generation is there and can be unpacked and extracted. */
  predicate Download(s: Sys, t: Sys) {
    && s.phase.Cleaned? && !s.phase.isNew && s.phase.id in s.remote && Downloadable(s.phase.id)
    && ExtractedTree(s.remote[s.phase.id].archive) == Some(t.disk)
    && t == s.(phase := Ready(false, s.phase.id, Some(s.remote[s.phase.id].archive)), disk := t.disk)
  }

  predicate NewWorld(s: Sys, t: Sys) {
    && s.phase.Cleaned? && s.phase.isNew
    && t == s.(phase := Ready(true, s.phase.id, None))
  }

  predicate Start(s: Sys, t: Sys) {
    s.phase.Ready? && t == s.(phase := Running)
  }

  /** The game writes what it likes. */
  predicate Play(s: Sys, t: Sys) {
    s.phase.Running? && t == s.(disk := t.disk)
  }

  /** The game ended without an error, or to be restarted. */
  predicate Exit(s: Sys, t: Sys) {
    s.phase.Running? && t == s.(phase := Finished)
  }

  ghost predicate Upload(s: Sys, t: Sys) {
    && s.phase.Finished? && Writable(s.disk) && t.phase.Uploaded?
    && var key := t.phase.key;
       && HasSuffix(key, ".tar.zst") && key in t.remote && Archives(t.remote[key].archive, s.disk, WORLD_DIR)
       && t == s.(phase := t.phase, remote := s.remote[key := t.remote[key]], uploads := s.uploads + {key})
  }

  predicate KeepKey(s: Sys, t: Sys) {
    s.phase.Uploaded? && t == s.(phase := Idle, store := s.store[WORLD_KEY := s.phase.key])
  }

  /** An error return, or the process dying: a removal or an extraction under way leaves anything on disk. */
  predicate Stop(s: Sys, t: Sys) {
    && t == s.(phase := Idle, disk := t.disk)
    && (t.disk == s.disk || (s.phase.Dropped? && MustClean(s.phase)) || s.phase.Cleaned?)
  }

  /**
   Others add, replace and delete generations: a user's upload reuses a fixed key. The key of a launch's
   upload has a time stamp; what is stored under it can be deleted, but is not replaced and does not come back.
   */
  predicate Others(s: Sys, t: Sys) {
    && t == s.(remote := t.remote) && "" !in t.remote
    && forall k | k in t.remote && k in s.uploads :: k in s.remote && t.remote[k] == s.remote[k]
  }

  /** Other state entries change freely. */
  predicate OtherState(s: Sys, t: Sys) {
    && t == s.(store := t.store)
    && (WORLD_KEY in t.store <==> WORLD_KEY in s.store)
    && GetState(t.store, WORLD_KEY) == GetState(s.store, WORLD_KEY)
  }

  ghost predicate Step(s: Sys, t: Sys, reliable: bool) {
    || Resolve(s, t) || Drop(s, t, reliable) || Clean(s, t) || SkipDownload(s, t) || Download(s, t) || NewWorld(s, t)
    || Start(s, t) || Play(s, t) || Exit(s, t) || Upload(s, t) || KeepKey(s, t)
    || Stop(s, t) || Others(s, t) || OtherState(s, t)
  }

  /** A machine nothing has been launched on. */
  predicate Init(s: Sys) {
    s.phase.Idle? && WORLD_KEY !in s.store && s.uploads == {} && "" !in s.remote
  }

  ghost predicate IsRun(run: seq<Sys>, reliable: bool) {
    && run != [] && Init(run[0])
    && forall i | 0 < i < |run| :: Step(run[i - 1], run[i], reliable)
  }

  // ---- what holds in every reachable state ----

  /** A launch has uploaded generation `k`; if it is still there, it is an archive of the world on disk. */
  ghost predicate Saved(s: Sys, k: Key) {
    k in s.uploads && (k in s.remote ==> Writable(s.disk) && Archives(s.remote[k].archive, s.disk, WORLD_DIR))
  }

  /** The world on disk is what `archive` extracts to; if a launch uploaded generation `k`, it cannot have changed since. */
  predicate Fetched(s: Sys, k: Key, archive: Archive) {
    && ExtractedTree(archive) == Some(s.disk)
    && (k in s.uploads && k in s.remote ==> s.remote[k].archive == archive)
  }

  ghost predicate CacheIsSound(s: Sys) {
    WORLD_KEY in s.store ==> Saved(s, s.store[WORLD_KEY])
  }

  ghost predicate Inv(s: Sys) {
    && "" !in s.remote && CacheIsSound(s)
    && (match s.phase
        case Idle => true
        case Chosen(_, _, oldId) => oldId == "" || oldId == GetState(s.store, WORLD_KEY)
        case Dropped(_, _, oldId) => WORLD_KEY !in s.store && (oldId == "" || Saved(s, oldId))
        case Ready(isNew, id, fetched) =>
          WORLD_KEY !in s.store &&
          if fetched.Some? then !isNew && Fetched(s, id, fetched.value) else isNew || id == "" || Saved(s, id)
        case Uploaded(key) => WORLD_KEY !in s.store && key != "" && Saved(s, key)
        case _ => WORLD_KEY !in s.store)
  }

  lemma StepKeepsInv(s: Sys, t: Sys)
    requires Inv(s) && Step(s, t, true)
    ensures Inv(t)
  {
    hide ExtractedTree, Archives, Writable, HasSuffix, Closed;
    if Upload(s, t) {
      NoSuffixOfNothing();
    } else if Others(s, t) {
      OthersKeepInv(s, t);
    } else {
      hide Upload, Others;
      LocalStepKeepsInv(s, t);
    }
  }

  lemma OthersKeepInv(s: Sys, t: Sys)
    requires Inv(s) && Others(s, t)
    ensures Inv(t)
  {
    hide ExtractedTree, Archives, Writable, Closed;
    assert forall k | Saved(s, k) :: Saved(t, k);
    assert forall k, a | Fetched(s, k, a) :: Fetched(t, k, a);
    hide Saved, Fetched;
  }

  lemma LocalStepKeepsInv(s: Sys, t: Sys)
    requires Inv(s) && Step(s, t, true) && !Upload(s, t) && !Others(s, t)
    ensures Inv(t)
  {
    if t.disk == s.disk && !Download(s, t) {
      SameDiskKeepsInv(s, t);
    } else {
      DiskChangeKeepsInv(s, t);
    }
  }

  lemma SameDiskKeepsInv(s: Sys, t: Sys)
    requires Inv(s) && Step(s, t, true) && !Upload(s, t) && !Others(s, t) && t.disk == s.disk && !Download(s, t)
    ensures Inv(t)
  {
    hide ExtractedTree, Archives, Writable, Closed, Downloadable, Upload, Others, Download, Saved, Fetched;
    assert t.remote == s.remote && t.uploads == s.uploads;
    NothingMoved(s, t);
    if OtherState(s, t) {
      hide Step;
    } else {
      hide OtherState;
    }
  }

  lemma NothingMoved(s: Sys, t: Sys)
    requires t.disk == s.disk && t.remote == s.remote && t.uploads == s.uploads
    ensures forall k :: Saved(s, k) <==> Saved(t, k)
    ensures forall k, a :: Fetched(s, k, a) <==> Fetched(t, k, a)
  {
    hide ExtractedTree, Archives, Writable, Closed;
  }

  /** The disk changes only while no key vouches for it, or to what a generation extracts to. */
  lemma DiskChangeKeepsInv(s: Sys, t: Sys)
    requires Inv(s) && Step(s, t, true) && !Upload(s, t) && !Others(s, t) && (t.disk != s.disk || Download(s, t))
    ensures Inv(t)
  {
    hide ExtractedTree, Archives, Writable, Closed, Downloadable, Upload, Others, Saved;
    assert s.phase.Dropped? || s.phase.Cleaned? || s.phase.Running?;
    assert WORLD_KEY !in t.store;
    assert Download(s, t) ==> Fetched(t, t.phase.id, t.phase.fetched.value);
    hide Fetched;
  }

  lemma NoSuffixOfNothing()
    ensures !HasSuffix("", ".tar.zst")
  {
  }

  lemma {:induction false} RunKeepsInv(run: seq<Sys>)
    requires IsRun(run, true)
    ensures Inv(run[|run| - 1])
  {
    if |run| > 1 {
      var before := run[..|run| - 1];
      RunKeepsInv(before);
      StepKeepsInv(before[|before| - 1], run[|run| - 1]);
    }
  }

  /**
   Whatever failed or died before, the generation the state entry names, if it still exists, is an
   archive of the world on disk; downloading it would give that very world exactly if the world has
   a level.dat file at its top.
   */
  lemma CachedWorldIsItsGeneration(run: seq<Sys>, k: Key)
    requires IsRun(run, true)
    requires var s := run[|run| - 1]; WORLD_KEY in s.store && s.store[WORLD_KEY] == k && k in s.remote
    ensures var s := run[|run| - 1];
      && Archives(s.remote[k].archive, s.disk, WORLD_DIR)
      && (ExtractedTree(s.remote[k].archive) == Some(s.disk) <==> FileAt(s.disk, [LEVEL_DAT]))
  {
    RunKeepsInv(run);
    SavedIsRestored(run[|run| - 1], k);
  }

  lemma SavedIsRestored(s: Sys, k: Key)
    requires Saved(s, k) && k in s.remote
    ensures ExtractedTree(s.remote[k].archive) == Some(s.disk) <==> FileAt(s.disk, [LEVEL_DAT])
  {
    RestoredExactly(s.remote[k].archive, s.disk, WORLD_DIR);
  }

  /** In `s` the generation is stored that a launch has downloaded when it is at `p`. */
  predicate StoredFor(s: Sys, p: Phase) {
    && p.Ready? && p.fetched.Some?
    && s.phase == Cleaned(false, p.id) && p.id in s.remote && s.remote[p.id].archive == p.fetched.value
  }

  /** What a launch has downloaded was stored under the key it selected, in the state it was downloaded in. */
  lemma {:induction false} FetchedWasStored(run: seq<Sys>) returns (i: nat)
    requires IsRun(run, true)
    requires var p := run[|run| - 1].phase; p.Ready? && p.fetched.Some?
    ensures i + 1 < |run| && StoredFor(run[i], run[|run| - 1].phase)
    ensures forall j | i < j < |run| :: run[j].phase == run[|run| - 1].phase
  {
    hide Step;
    var before := run[..|run| - 1];
    var s, t := run[|run| - 2], run[|run| - 1];
    assert Step(s, t, true) && before[|before| - 1] == s;
    ReadyAfter(s, t);
    hide StoredFor, Init;
    if s.phase == t.phase {
      i := FetchedWasStored(before);
    } else {
      i := |run| - 2;
    }
  }

  lemma ReadyAfter(s: Sys, t: Sys)
    requires Step(s, t, true) && t.phase.Ready? && t.phase.fetched.Some?
    ensures s.phase == t.phase || StoredFor(s, t.phase)
  {
    hide ExtractedTree, Archives, Writable, Closed, Downloadable, HasSuffix;
  }

  /**
   A launch that is not for a new world starts from what the generation it selected extracted to when
   it was downloaded; if it has skipped the download, from the world that generation was made of, which
   is what the generation extracts to exactly if that world has a level.dat file at its top.
   */
  lemma LaunchStartsFromSelected(run: seq<Sys>)
    requires IsRun(run, true) && run[|run| - 1].phase.Ready? && !run[|run| - 1].phase.isNew
    ensures var s := run[|run| - 1];
      match s.phase.fetched
      case Some(archive) =>
        && ExtractedTree(archive) == Some(s.disk) && (exists i | 0 <= i < |run| :: StoredFor(run[i], s.phase))
        && (s.phase.id in s.uploads && s.phase.id in s.remote ==> s.remote[s.phase.id].archive == archive)
      case None =>
        s.phase.id in s.remote ==>
          && Archives(s.remote[s.phase.id].archive, s.disk, WORLD_DIR)
          && (ExtractedTree(s.remote[s.phase.id].archive) == Some(s.disk) <==> FileAt(s.disk, [LEVEL_DAT]))
  {
    RunKeepsInv(run);
    var s := run[|run| - 1];
    if s.phase.fetched.Some? {
      var i := FetchedWasStored(run);
    } else if s.phase.id in s.remote {
      SavedIsRestored(s, s.phase.id);
    }
  }

  /** While a world is running, or anything has been done to it since, no state entry vouches for it. */
  lemma NoKeyWhileRunning(run: seq<Sys>)
    requires IsRun(run, true)
    requires !run[|run| - 1].phase.Idle? && !run[|run| - 1].phase.Chosen?
    ensures WORLD_KEY !in run[|run| - 1].store
  {
    RunKeepsInv(run);
  }

  // ---- when the removal of the key fails ----

  function SmallWorld(n: int): World { map[[] := Dir, [LEVEL_DAT] := File([n])] }

  function SmallArchive(n: int): Archive {
    [Entry([WORLD_DIR], false, Dir), Entry([WORLD_DIR, LEVEL_DAT], false, File([n]))]
  }

  lemma SmallWorldIsArchived(n: int)
    ensures Writable(SmallWorld(n)) && Archives(SmallArchive(n), SmallWorld(n), WORLD_DIR)
    ensures ExtractedTree(SmallArchive(n)) == Some(SmallWorld(n))
  {
    var paths: seq<Path> := [[], [LEVEL_DAT]];
    assert [WORLD_DIR] + [] == [WORLD_DIR];
    assert ArchivedAs(SmallArchive(n), SmallWorld(n), WORLD_DIR, paths);
    RestoredExactly(SmallArchive(n), SmallWorld(n), WORLD_DIR);
  }

  lemma SmallWorldsDiffer(m: int, n: int)
    requires m != n
    ensures SmallWorld(m) != SmallWorld(n)
  {
    assert SmallWorld(m)[[LEVEL_DAT]] != SmallWorld(n)[[LEVEL_DAT]];
  }

  /** The run goes on from its last state. */
  lemma RunOn(run: seq<Sys>, t: Sys, reliable: bool) returns (more: seq<Sys>)
    requires IsRun(run, reliable) && Step(run[|run| - 1], t, reliable)
    ensures IsRun(more, reliable) && more != [] && more[|more| - 1] == t
  {
    hide Step, Init;
    more := run + [t];
    forall i | 0 < i < |more|
      ensures Step(more[i - 1], more[i], reliable)
    {
      assert more[i - 1] == run[i - 1];
      if i < |run| {
        assert more[i] == run[i];
      }
    }
  }

  lemma FetchSteps(s0: Sys, s1: Sys, s2: Sys, s3: Sys, s4: Sys, reliable: bool)
    requires Resolve(s0, s1) && Drop(s1, s2, reliable) && Clean(s2, s3) && Download(s3, s4)
    ensures Step(s0, s1, reliable) && Step(s1, s2, reliable) && Step(s2, s3, reliable) && Step(s3, s4, reliable)
  {
    hide Resolve, Drop, Clean, SkipDownload, Download, NewWorld, Start, Play, Exit, Upload, KeepKey, Stop, Others, OtherState;
  }

  lemma KeepSteps(s0: Sys, s1: Sys, s2: Sys, s3: Sys, s4: Sys)
    requires Start(s0, s1) && Exit(s1, s2) && Upload(s2, s3) && KeepKey(s3, s4)
    ensures Step(s0, s1, false) && Step(s1, s2, false) && Step(s2, s3, false) && Step(s3, s4, false)
  {
    hide Resolve, Drop, Clean, SkipDownload, Download, NewWorld, Start, Play, Exit, Upload, KeepKey, Stop, Others, OtherState;
  }

  /** A launch of generation `id`, up to the point where its world `n` is on disk. */
  lemma Launched(run: seq<Sys>, id: Key, oldId: Key, store: map<string, string>, n: int, reliable: bool) returns (more: seq<Sys>)
    requires IsRun(run, reliable)
    requires var s := run[|run| - 1];
      && s.phase.Idle? && id != oldId && (oldId == "" || oldId == GetState(s.store, WORLD_KEY))
      && (store == s.store - {WORLD_KEY} || (!reliable && store == s.store))
      && id in s.remote && Downloadable(id) && s.remote[id].archive == SmallArchive(n)
    ensures IsRun(more, reliable) && more != []
    ensures var s := run[|run| - 1];
      more[|more| - 1] == Sys(store, SmallWorld(n), s.remote, s.uploads, Ready(false, id, Some(SmallArchive(n))))
  {
    hide Step, Downloadable, ExtractedTree, SmallWorld, SmallArchive, GetState;
    var s := run[|run| - 1];
    var chosen, dropped, cleaned := Selected(s, id, oldId, store, reliable);
    var ready := Unpacked(cleaned, n);
    FetchSteps(s, chosen, dropped, cleaned, ready, reliable);
    hide *;
    more := RunOn(run, chosen, reliable);
    more := RunOn(more, dropped, reliable);
    more := RunOn(more, cleaned, reliable);
    more := RunOn(more, ready, reliable);
  }

  lemma Selected(s: Sys, id: Key, oldId: Key, store: map<string, string>, reliable: bool)
    returns (chosen: Sys, dropped: Sys, cleaned: Sys)
    requires s.phase.Idle? && id != oldId && (oldId == "" || oldId == GetState(s.store, WORLD_KEY))
    requires store == s.store - {WORLD_KEY} || (!reliable && store == s.store)
    ensures Resolve(s, chosen) && Drop(chosen, dropped, reliable) && Clean(dropped, cleaned)
    ensures cleaned == Sys(store, map[], s.remote, s.uploads, Cleaned(false, id))
  {
    hide GetState;
    chosen := s.(phase := Chosen(false, id, oldId));
    dropped := chosen.(phase := Dropped(false, id, oldId), store := store);
    cleaned := dropped.(phase := Cleaned(false, id), disk := map[]);
  }

  lemma Unpacked(s: Sys, n: int) returns (ready: Sys)
    requires s.phase.Cleaned? && !s.phase.isNew
    requires s.phase.id in s.remote && Downloadable(s.phase.id) && s.remote[s.phase.id].archive == SmallArchive(n)
    ensures Download(s, ready)
    ensures ready == s.(phase := Ready(false, s.phase.id, Some(SmallArchive(n))), disk := SmallWorld(n))
  {
    hide Downloadable, ExtractedTree, SmallWorld, SmallArchive, Archives, Writable;
    SmallWorldIsArchived(n);
    ready := s.(phase := Ready(false, s.phase.id, Some(SmallArchive(n))), disk := SmallWorld(n));
  }

  /** The game runs and ends well, and its world `n` is kept as generation `key`. */
  lemma Kept(run: seq<Sys>, key: Key, n: int) returns (more: seq<Sys>)
    requires IsRun(run, false) && HasSuffix(key, ".tar.zst")
    requires var s := run[|run| - 1]; s.phase.Ready? && s.disk == SmallWorld(n)
    ensures IsRun(more, false) && more != []
    ensures var s := run[|run| - 1];
      more[|more| - 1] == Sys(s.store[WORLD_KEY := key], s.disk,
        s.remote[key := Generation(SmallArchive(n), 1)], s.uploads + {key}, Idle)
  {
    var s := run[|run| - 1];
    hide *;
    var running, finished := Played(s);
    var uploaded, idle := Stored(finished, key, n);
    KeepSteps(s, running, finished, uploaded, idle);
    more := RunOn(run, running, false);
    more := RunOn(more, finished, false);
    more := RunOn(more, uploaded, false);
    more := RunOn(more, idle, false);
  }

  lemma Played(s: Sys) returns (running: Sys, finished: Sys)
    requires s.phase.Ready?
    ensures Start(s, running) && Exit(running, finished) && finished == s.(phase := Finished)
  {
    running := s.(phase := Running);
    finished := s.(phase := Finished);
  }

  lemma Stored(s: Sys, key: Key, n: int) returns (uploaded: Sys, idle: Sys)
    requires s.phase.Finished? && s.disk == SmallWorld(n) && HasSuffix(key, ".tar.zst")
    ensures Upload(s, uploaded) && KeepKey(uploaded, idle)
    ensures idle == Sys(s.store[WORLD_KEY := key], s.disk,
      s.remote[key := Generation(SmallArchive(n), 1)], s.uploads + {key}, Idle)
  {
    hide HasSuffix, ExtractedTree, Archives, Writable, SmallWorld, SmallArchive;
    SmallWorldIsArchived(n);
    uploaded := s.(
      phase := Uploaded(key), remote := s.remote[key := Generation(SmallArchive(n), 1)], uploads := s.uploads + {key});
    idle := uploaded.(phase := Idle, store := s.store[WORLD_KEY := key]);
  }

  /** The launch stops before it runs, and the next one finds its generation `key` still stored. */
  lemma Skipped(run: seq<Sys>, key: Key) returns (more: seq<Sys>)
    requires IsRun(run, false)
    requires var s := run[|run| - 1]; s.phase.Ready? && GetState(s.store, WORLD_KEY) == key
    ensures IsRun(more, false) && more != []
    ensures var s := run[|run| - 1];
      more[|more| - 1] == Sys(s.store - {WORLD_KEY}, s.disk, s.remote, s.uploads, Ready(false, key, None))
  {
    var s := run[|run| - 1];
    hide IsRun, Downloadable, ExtractedTree, Archives, Closed, Others, OtherState, Upload;
    var idle := s.(phase := Idle);
    var chosen := idle.(phase := Chosen(false, key, key));
    var dropped := chosen.(phase := Dropped(false, key, key), store := s.store - {WORLD_KEY});
    var ready := dropped.(phase := Ready(false, key, None));
    assert Stop(s, idle) && Resolve(idle, chosen) && Drop(chosen, dropped, false) && SkipDownload(dropped, ready);
    assert Step(s, idle, false) && Step(idle, chosen, false) && Step(chosen, dropped, false) && Step(dropped, ready, false);
    hide Step;
    more := RunOn(run, idle, false);
    more := RunOn(more, chosen, false);
    more := RunOn(more, dropped, false);
    more := RunOn(more, ready, false);
  }

  /**
   The error of the removal is ignored. If a removal can fail, a launch can start from another
   generation than the one it selected: here `a1` is kept, `b` is downloaded over it by a launch
   whose removal fails, and `a1` is then launched without a download.
   */
  lemma UnreliableRemovalBreaksCache(a: Key, a1: Key, b: Key) returns (run: seq<Sys>)
    requires a != b && b != a1 && a != "" && b != ""
    requires HasSuffix(a, ".tar.zst") && HasSuffix(a1, ".tar.zst") && HasSuffix(b, ".tar.zst")
    ensures IsRun(run, false)
    ensures var s := run[|run| - 1];
      && s.phase == Ready(false, a1, None) && a1 in s.remote && Downloadable(a1)
      && ExtractedTree(s.remote[a1].archive).Some? && ExtractedTree(s.remote[a1].archive).value != s.disk
  {
    hide *;
    SmallWorldIsArchived(1);
    SmallWorldsDiffer(1, 2);
    ZstdIsDownloadable(a);
    ZstdIsDownloadable(a1);
    ZstdIsDownloadable(b);
    var s := Fresh(a, b);
    run := Launched([s], a, "", map[], 1, false);
    run := Kept(run, a1, 1);
    assert GetState(run[|run| - 1].store, WORLD_KEY) == a1 by {
      KeptKey(map[], a1);
    }
    run := Launched(run, b, a1, run[|run| - 1].store, 2, false);
    run := Skipped(run, a1);
  }

  /** A generation that is not of a launch's upload can be replaced while the launch that has downloaded it goes on. */
  lemma UserUploadReplaces(id: Key) returns (run: seq<Sys>)
    requires id != "" && Downloadable(id)
    ensures IsRun(run, true)
    ensures var s := run[|run| - 1];
      && s.phase.Ready? && !s.phase.isNew && s.phase.id == id && s.phase.fetched.Some? && id in s.remote
      && ExtractedTree(s.remote[id].archive).Some? && ExtractedTree(s.remote[id].archive).value != s.disk
  {
    hide *;
    SmallWorldIsArchived(2);
    SmallWorldsDiffer(1, 2);
    var s := NothingLaunched(id);
    run := Launched([s], id, "", map[], 1, true);
    var t := run[|run| - 1].(remote := map[id := Generation(SmallArchive(2), 1)]);
    Replaced(run[|run| - 1], id, 2);
    run := RunOn(run, t, true);
  }

  lemma NothingLaunched(id: Key) returns (s: Sys)
    requires id != ""
    ensures IsRun([s], true) && s.phase == Idle && s.store == map[] && s.uploads == {}
    ensures id in s.remote && s.remote[id].archive == SmallArchive(1) && s.store - {WORLD_KEY} == map[]
  {
    s := Sys(map[], map[], map[id := Generation(SmallArchive(1), 0)], {}, Idle);
  }

  lemma Replaced(s: Sys, id: Key, n: int)
    requires s.uploads == {} && id != ""
    ensures Step(s, s.(remote := map[id := Generation(SmallArchive(n), 1)]), true)
  {
    hide SmallArchive;
    assert Others(s, s.(remote := map[id := Generation(SmallArchive(n), 1)]));
  }

  lemma ZstdIsDownloadable(key: Key)
    requires HasSuffix(key, ".tar.zst")
    ensures Downloadable(key)
  {
  }

  lemma KeptKey(store: map<string, string>, key: Key)
    ensures GetState(store[WORLD_KEY := key], WORLD_KEY) == key
    ensures GetState(store, WORLD_KEY) == if WORLD_KEY in store then store[WORLD_KEY] else ""
  {
  }

  /** A machine nothing has been launched on, with two generations stored. */
  lemma Fresh(a: Key, b: Key) returns (s: Sys)
    requires a != b && a != "" && b != ""
    ensures IsRun([s], false) && s.phase == Idle && s.store == map[] && a in s.remote && b in s.remote
    ensures s.remote[a].archive == SmallArchive(1) && s.remote[b].archive == SmallArchive(2)
  {
    s := Sys(map[], map[], map[a := Generation(SmallArchive(1), 0), b := Generation(SmallArchive(2), 0)], {}, Idle);
  }

  /** There are such keys. */
  lemma SomeKeys() returns (a: Key, a1: Key, b: Key)
    ensures a != b && b != a1 && a != "" && b != ""
    ensures HasSuffix(a, ".tar.zst") && HasSuffix(a1, ".tar.zst") && HasSuffix(b, ".tar.zst")
  {
    a, a1, b := "a/0.tar.zst", "a/1.tar.zst", "b/1.tar.zst";
  }
}
