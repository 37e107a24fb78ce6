/** The middleware's code: its effects, in their order, are a run of the world cache's machine. */
module WorldMiddleware {
  import opened Options
  import opened Paths
  import opened Trees
  import opened Extraction
  import opened Streaming
  import opened WorldArchive
  import opened WorldCache
  import Generations

  /**
   What `Wrap` returns: no error, a request to restart, such a request joined with the error of a
   failed upload, another error; or nothing, because the process died.
   */
  datatype Outcome = Done | Restart | RestartUnsaved | Error | Died

  /** What the rest of the chain returns. */
  datatype GameEnd = Ended | RestartAsked | Failed

  /** When each generation was stored. */
  function Times(remote: map<Key, Generation>): Generations.Bucket {
    map k | k in remote :: remote[k].modified
  }

  /** World names for which the control plane hands out an upload URL. */
  predicate Storable(worldName: string) { '/' !in worldName }

  /** World names its route for the latest generation answers: one path segment, not empty. */
  predicate Addressable(worldName: string) { worldName != "" && '/' !in worldName }

  /** What a launch whose world got ready comes to if nothing fails on its own account; it leaves `disk`. */
  predicate EndsCalmly(outcome: Outcome, game: GameEnd, worldName: string, disk: World) {
    match game
    case Failed => outcome == Error
    case Ended => outcome == if Writable(disk) && Storable(worldName) then Done else Error
    case RestartAsked => outcome == if Writable(disk) && Storable(worldName) then Restart else RestartUnsaved
  }

  /** Nothing was uploaded since `was`. */
  predicate NothingUploaded(was: seq<Sys>, run: seq<Sys>) {
    was <= run && forall i | |was| <= i < |run| :: !run[i].phase.Uploaded?
  }

  /** The key of a launch's upload: the world's name, and a time. */
  ghost predicate IsKeyOf(key: Key, worldName: string) {
    exists stamp :: key == worldName + "/" + stamp + ".tar.zst"
  }

  /** A download of the generation gets through if nothing fails on its own account. */
  predicate Obtainable(remote: map<Key, Generation>, id: Key) {
    id in remote && Downloadable(id) && ExtractedTree(remote[id].archive).Some?
  }

  /**
   What a launch that asked for `resourceID` when `before` was stored can only fail to download: a
   generation that is not obtainable, or the latest one of a world that has none or cannot be asked for.
   */
  ghost predicate NothingToFetch(before: map<Key, Generation>, after: map<Key, Generation>, worldName: string, resourceID: Key) {
    if resourceID != LATEST then !Obtainable(after, resourceID)
    else
      || !Addressable(worldName) || Generations.Listing(Times(before), worldName + "/") == {}
      || exists id :: Generations.IsLatest(Times(before), worldName, id) && !Obtainable(after, id)
  }

  /** The generation a launch may select when `remote` is stored. */
  ghost predicate SelectedBy(remote: map<Key, Generation>, worldName: string, resourceID: Key, id: Key) {
    if resourceID == LATEST then Generations.IsLatest(Times(remote), worldName, id) else id == resourceID
  }

  class Middleware {
    var store: map<string, string>
    var disk: World
    var remote: map<Key, Generation>
    /** The keys of all uploads by launches so far. */
    var uploads: set<Key>
    ghost var phase: Phase
    /** Every state so far, from the first launch on. */
    ghost var run: seq<Sys>

    ghost function State(): Sys
      reads this
    {
      Sys(store, disk, remote, uploads, phase)
    }

    ghost predicate Recorded()
      reads this
    {
      run != [] && IsRun(run, true) && run[|run| - 1] == State()
    }

    ghost method Record()
      requires run != [] && IsRun(run, true) && Step(run[|run| - 1], State(), true)
      modifies this`run
      ensures Recorded() && run == old(run) + [State()]
      ensures !phase.Uploaded? ==> NothingUploaded(old(run), run)
    {
      hide Step, Init;
      run := run + [State()];
    }

    /** Between two steps others may change the remote, and the process may die unless all is `calm`. */
    method Between(calm: bool) returns (died: bool)
      requires Recorded()
      modifies this
      ensures calm ==> !died
      ensures Recorded() && old(run) <= run
      ensures store == old(store) && disk == old(disk)
      ensures phase == if died then Idle else old(phase)
      ensures !old(phase).Uploaded? ==> NothingUploaded(old(run), run)
    {
      hide IsRun, Closed;
      var remote': map<Key, Generation> := *;
      if Others(Sys(store, disk, remote, uploads, Idle), Sys(store, disk, remote', uploads, Idle)) {
        remote := remote';
        assert Others(run[|run| - 1], State());
        Record();
      }
      died := *;
      died := died && !calm;
      if died {
        Fail();
      }
    }

    /** An error return, or the end of the process. */
    ghost method Fail()
      requires Recorded()
      modifies this`phase, this`run
      ensures Recorded() && phase == Idle && NothingUploaded(old(run), run)
    {
      hide IsRun, Closed;
      phase := Idle;
      assert Stop(run[|run| - 1], State());
      Record();
    }

    /**
     `Wrap`, with every call into the store, the disk and the remote able to fail. When it ends
     without an error the launch got its world ready at state `ready` and uploaded it at `uploaded`.
     A restart whose upload failed leaves no key. Under a name that is not storable nothing is uploaded,
     and a key is left only if the launch did not get to the disk. If all is `calm`, nothing fails on its
     own account.
     */
    method Wrap(isNewWorld: bool, worldName: string, resourceID: Key, calm: bool, game: GameEnd)
      returns (outcome: Outcome, ghost ready: nat, ghost uploaded: nat)
      requires Recorded() && phase == Idle
      modifies this
      ensures Recorded() && phase == Idle && old(run) <= run
      ensures WORLD_KEY in store && store[WORLD_KEY] in remote ==> Archives(remote[store[WORLD_KEY]].archive, disk, WORLD_DIR)
      ensures outcome.Done? ==> game.Ended?
      ensures outcome.Restart? || outcome.RestartUnsaved? ==> game.RestartAsked?
      ensures outcome.Done? || outcome.Restart? || outcome.RestartUnsaved? ==>
        && |old(run)| <= ready < |run|
        && run[ready].phase.Ready? && run[ready].phase.isNew == isNewWorld
        && (!isNewWorld ==> SelectedBy(old(remote), worldName, resourceID, run[ready].phase.id))
        && (WORLD_KEY !in old(store) && !isNewWorld && run[ready].phase.fetched.None? ==> run[ready].phase.id == "")
        && (isNewWorld ==> run[ready].disk == map[])
        && (run[ready].phase.fetched.Some? ==> ExtractedTree(run[ready].phase.fetched.value) == Some(run[ready].disk))
        && (!isNewWorld && run[ready].phase.fetched.None? ==> run[ready].disk == old(disk))
        && (calm && !isNewWorld && WORLD_KEY in old(store) ==>
             (run[ready].phase.fetched.None? <==> run[ready].phase.id == old(store)[WORLD_KEY]))
      ensures outcome.Done? || outcome.Restart? ==>
        && ready < uploaded < |run| && run[uploaded].phase.Uploaded? && IsKeyOf(run[uploaded].phase.key, worldName)
        && (WORLD_KEY in store ==> store[WORLD_KEY] == run[uploaded].phase.key)
      ensures outcome.RestartUnsaved? ==> WORLD_KEY !in store
      ensures !Storable(worldName) ==>
        && !outcome.Done? && !outcome.Restart? && NothingUploaded(old(run), run)
        && (WORLD_KEY in store ==> store == old(store) && disk == old(disk))
      ensures calm && (outcome.Done? || outcome.Restart?) ==> WORLD_KEY in store
      ensures calm ==>
        || EndsCalmly(outcome, game, worldName, disk)
        || (outcome.Error? && !isNewWorld && NothingToFetch(old(remote), remote, worldName, resourceID)
             && !(resourceID != LATEST && WORLD_KEY in old(store) && resourceID == old(store)[WORLD_KEY]))
      ensures calm ==> !outcome.Died?
    {
      hide IsRun, Closed, Archives, Writable, Obtainable, Generations.IsLatest, Generations.Listing, Step, ExtractedTree, IsKeyOf;
      ready, uploaded := 0, 0;
      var selected;
      outcome, selected := Select(isNewWorld, worldName, resourceID, calm);
      if outcome.Done? {
        outcome := Prepare(isNewWorld, selected.0, selected.1, calm);
        ready := |run| - 1;
        if outcome.Done? {
          outcome, uploaded := LaunchAndUpload(worldName, calm, game);
        }
      }
      if WORLD_KEY in store && store[WORLD_KEY] in remote {
        CachedWorldIsItsGeneration(run, store[WORLD_KEY]);
      }
    }

    /** The newest generation of the world, if the latest is asked for. */
    method GetRealResourceID(worldName: string, resourceID: Key, calm: bool) returns (id: Option<Key>)
      ensures id.Some? ==> SelectedBy(remote, worldName, resourceID, id.value)
      ensures id.Some? && resourceID == LATEST ==> Addressable(worldName)
      ensures calm && resourceID == LATEST ==>
        (id.Some? <==> Addressable(worldName) && Generations.Listing(Times(remote), worldName + "/") != {})
      ensures resourceID != "@/latest" ==> id == Some(resourceID)
      ensures resourceID == "@/latest" && (worldName == "" || '/' in worldName) ==> id.None?
      ensures calm && resourceID == "@/latest" && worldName != "" && '/' !in worldName ==>
        (id.Some? <==> Generations.Listing(Times(remote), worldName + "/") != {})
    {
      if resourceID != LATEST {
        return Some(resourceID);
      }
      if !Addressable(worldName) {
        return None;
      }
      var service := new Generations.WorldService(Times(remote));
      id := service.GetLatestWorldKey(worldName);
      var answered: bool := *;
      if !(answered || calm) {
        id := None;
      }
    }

    /** Finds the generation to start from, and drops the key of the world on disk. */
    method Select(isNewWorld: bool, worldName: string, resourceID: Key, calm: bool) returns (outcome: Outcome, ids: (Key, Key))
      requires Recorded() && phase == Idle
      modifies this
      ensures Recorded() && NothingUploaded(old(run), run) && disk == old(disk)
      ensures WORLD_KEY in store ==> store == old(store)
      ensures if outcome.Done? then phase == Dropped(isNewWorld, ids.0, ids.1) && WORLD_KEY !in store else phase == Idle
      ensures outcome.Done? || outcome.Error? || (outcome.Died? && !calm)
      ensures isNewWorld ==> ids.0 == ""
      ensures !isNewWorld && outcome.Done? ==> SelectedBy(old(remote), worldName, resourceID, ids.0)
      ensures WORLD_KEY !in old(store) ==> ids.1 == ""
      ensures calm ==>
        (outcome.Error? <==>
          && !isNewWorld && resourceID == LATEST
          && (!Addressable(worldName) || Generations.Listing(Times(old(remote)), worldName + "/") == {}))
      ensures calm && !isNewWorld && outcome.Done? && WORLD_KEY in old(store) ==> ids.1 == old(store)[WORLD_KEY]
    {
      hide IsRun, Closed, Generations.IsLatest, Generations.Listing, Times, Addressable, SelectedBy, NothingUploaded;
      StillNothing();
      var worldResourceID, oldResourceID := "", "";
      if !isNewWorld {
        var realID := GetRealResourceID(worldName, resourceID, calm);
        if realID.None? {
          return Error, ("", "");
        }
        worldResourceID := realID.value;
        var readable: bool := *;
        if readable || calm {
          oldResourceID := GetState(store, WORLD_KEY);
        }
      }
      phase := Chosen(isNewWorld, worldResourceID, oldResourceID);
      assert Resolve(run[|run| - 1], State());
      Record();
      ids := (worldResourceID, oldResourceID);
      var died := Between(calm);
      if died {
        return Died, ids;
      }
      // just in case
      store := store - {WORLD_KEY};
      phase := Dropped(isNewWorld, worldResourceID, oldResourceID);
      assert Drop(run[|run| - 1], State(), true);
      Record();
      died := Between(calm);
      outcome := if died then Died else Done;
    }

    /** Gets the selected world on disk. */
    method Prepare(isNewWorld: bool, worldResourceID: Key, oldResourceID: Key, calm: bool) returns (outcome: Outcome)
      requires Recorded() && phase == Dropped(isNewWorld, worldResourceID, oldResourceID)
      requires isNewWorld ==> worldResourceID == ""
      modifies this
      ensures Recorded() && NothingUploaded(old(run), run) && store == old(store)
      ensures outcome.Done? ==>
        && phase.Ready? && phase.isNew == isNewWorld && phase.id == worldResourceID
        && (phase.fetched.Some? ==> ExtractedTree(phase.fetched.value) == Some(disk))
        && (phase.fetched.None? <==> isNewWorld || worldResourceID == oldResourceID)
        && (phase.fetched.None? ==> disk == if isNewWorld then map[] else old(disk))
      ensures outcome.Done? ==> |run| > |old(run)|
      ensures !outcome.Done? ==> phase == Idle && (outcome.Error? || (outcome.Died? && !calm))
      ensures calm && outcome.Error? ==> !isNewWorld && worldResourceID != oldResourceID && !Obtainable(remote, worldResourceID)
    {
      hide IsRun, Closed, Obtainable, NothingUploaded, ExtractedTree;
      StillNothing();
      if isNewWorld || worldResourceID != oldResourceID {
        var cleaned: bool := *;
        if !cleaned && !calm {
          disk, phase := *, Idle;
          assert Stop(run[|run| - 1], State());
          Record();
          return Error;
        }
        disk, phase := NO_WORLD, Cleaned(isNewWorld, worldResourceID);
        assert Clean(run[|run| - 1], State());
        Record();
        var died := Between(calm);
        if died {
          return Died;
        }
        outcome := Fetch(isNewWorld, worldResourceID, calm);
      } else {
        phase := Ready(false, worldResourceID, None);
        assert SkipDownload(run[|run| - 1], State());
        Record();
        outcome := Done;
      }
    }

    /** The download, unless the world is new: the archive type, the connection and the extraction can all fail. */
    method Fetch(isNewWorld: bool, worldResourceID: Key, calm: bool) returns (outcome: Outcome)
      requires Recorded() && phase == Cleaned(isNewWorld, worldResourceID) && (isNewWorld ==> worldResourceID == "")
      modifies this
      ensures Recorded() && NothingUploaded(old(run), run) && store == old(store) && remote == old(remote) && |run| > |old(run)|
      ensures outcome.Done? || outcome.Error?
      ensures outcome.Error? ==> phase == Idle
      ensures outcome.Done? && isNewWorld ==> phase == Ready(true, worldResourceID, None) && disk == old(disk)
      ensures outcome.Done? && !isNewWorld ==>
        && Obtainable(remote, worldResourceID) && ExtractedTree(remote[worldResourceID].archive) == Some(disk)
        && phase == Ready(false, worldResourceID, Some(remote[worldResourceID].archive))
      ensures calm && outcome.Error? ==> !isNewWorld && !Obtainable(remote, worldResourceID)
      ensures outcome.Done? && !isNewWorld ==>
        EndsIn(worldResourceID, ".zip") || EndsIn(worldResourceID, ".tar.xz") || EndsIn(worldResourceID, ".tar.zst")
      ensures calm && !isNewWorld && worldResourceID in remote && ExtractedTree(remote[worldResourceID].archive).Some? ==>
        (outcome.Done? <==>
          EndsIn(worldResourceID, ".zip") || EndsIn(worldResourceID, ".tar.xz") || EndsIn(worldResourceID, ".tar.zst"))
    {
      hide IsRun, Closed, ExtractedTree, Downloadable, EndsIn;
      DownloadableByName(worldResourceID);
      if isNewWorld {
        phase := Ready(isNewWorld, worldResourceID, None);
        assert NewWorld(run[|run| - 1], State());
        Record();
        return Done;
      }
      var connected: bool := *;
      if Downloadable(worldResourceID) && worldResourceID in remote && (connected || calm) {
        var creator := new FileCreator();
        var extracted := creator.Run(remote[worldResourceID].archive);
        if extracted {
          ExtractedIsClosed(remote[worldResourceID].archive);
          disk, phase := creator.out, Ready(false, worldResourceID, Some(remote[worldResourceID].archive));
          assert Download(run[|run| - 1], State());
          Record();
          return Done;
        }
      }
      disk, phase := *, Idle;
      assert Stop(run[|run| - 1], State());
      Record();
      outcome := Error;
    }

    method LaunchAndUpload(worldName: string, calm: bool, game: GameEnd) returns (outcome: Outcome, ghost uploaded: nat)
      requires Recorded() && phase.Ready? && WORLD_KEY !in store
      modifies this
      ensures Recorded() && phase == Idle && old(run) <= run
      ensures outcome.Done? ==> game.Ended?
      ensures outcome.Restart? || outcome.RestartUnsaved? ==> game.RestartAsked?
      ensures outcome.Done? || outcome.Restart? ==>
        && |old(run)| <= uploaded < |run| && run[uploaded].phase.Uploaded? && IsKeyOf(run[uploaded].phase.key, worldName)
        && (WORLD_KEY in store ==> store[WORLD_KEY] == run[uploaded].phase.key)
      ensures !(outcome.Done? || outcome.Restart?) ==> WORLD_KEY !in store
      ensures !Storable(worldName) ==> !outcome.Done? && !outcome.Restart? && NothingUploaded(old(run), run)
      ensures calm && (outcome.Done? || outcome.Restart?) ==> WORLD_KEY in store
      ensures calm ==> EndsCalmly(outcome, game, worldName, disk)
    {
      hide IsRun, Closed, Writable, Storable, NothingUploaded, IsKeyOf, HasSuffix, HasPrefix;
      StillNothing();
      uploaded := 0;
      var died := Launch(calm, game);
      if died {
        return Died, 0;
      }
      if game.Failed? {
        return Error, 0;
      }
      var worldKey := UploadWorld(worldName, calm);
      if worldKey.None? {
        // The joined error still asks for a restart if the game did.
        return if game.RestartAsked? then RestartUnsaved else Error, 0;
      }
      uploaded := |run| - 1;
      died := KeepWorldKey(worldKey.value, calm);
      if died {
        return Died, 0;
      }
      outcome := if game.RestartAsked? then Restart else Done;
    }

    /** The key of the upload is kept in the store, unless that fails or the process dies before. */
    method KeepWorldKey(worldKey: Key, calm: bool) returns (died: bool)
      requires Recorded() && phase == Uploaded(worldKey) && WORLD_KEY !in store
      modifies this
      ensures Recorded() && phase == Idle && old(run) <= run && disk == old(disk)
      ensures store == old(store) || (!died && store == old(store)[WORLD_KEY := worldKey])
      ensures calm ==> !died && store == old(store)[WORLD_KEY := worldKey]
      ensures calm ==>
        "github.com/kofuk/premises/runner/mclauncher/middleware/world.WorldKey" in store
        && store["github.com/kofuk/premises/runner/mclauncher/middleware/world.WorldKey"] == worldKey
    {
      hide IsRun, Closed;
      died := Between(calm);
      if died {
        return;
      }
      var kept: bool := *;
      if kept || calm {
        store, phase := store[WORLD_KEY := worldKey], Idle;
        assert KeepKey(run[|run| - 1], State());
        Record();
      } else {
        Fail();
      }
    }

    /** The rest of the middleware chain, down to the game. */
    method Launch(calm: bool, game: GameEnd) returns (died: bool)
      requires Recorded() && phase.Ready?
      modifies this
      ensures Recorded() && NothingUploaded(old(run), run) && store == old(store)
      ensures phase == if died || game.Failed? then Idle else Finished
      ensures calm ==> !died
    {
      hide IsRun, Closed, NothingUploaded;
      StillNothing();
      phase := Running;
      assert Start(run[|run| - 1], State());
      Record();
      disk := *;
      assert Play(run[|run| - 1], State());
      Record();
      died := Between(calm);
      if died {
        return;
      }
      if game.Failed? {
        Fail();
      } else {
        phase := Finished;
        assert Exit(run[|run| - 1], State());
        Record();
        died := Between(calm);
      }
    }

    /**
     `UploadWorld`: the archive is written, and stored under a key with the time in seconds, which an earlier
     upload of the same second has as well. It can fail at any point, even after that.
     */
    method UploadWorld(worldName: string, calm: bool) returns (worldKey: Option<Key>)
      requires Recorded() && phase.Finished?
      modifies this
      ensures Recorded() && old(run) <= run && store == old(store) && disk == old(disk)
      ensures if worldKey.Some? then phase == Uploaded(worldKey.value) && |run| > |old(run)| else phase == Idle
      ensures worldKey.Some? ==> HasPrefix(worldKey.value, worldName + "/") && HasSuffix(worldKey.value, ".tar.zst")
      ensures !Storable(worldName) ==> worldKey.None? && NothingUploaded(old(run), run)
      ensures calm ==> (worldKey.Some? <==> Writable(disk) && Storable(worldName))
      ensures '/' in worldName ==> worldKey.None?
      ensures calm && '/' !in worldName ==>
        (worldKey.Some? <==> [] in disk && !(["level.dat"] in disk && disk[["level.dat"]] == Dir))
      ensures worldKey.Some? ==> IsKeyOf(worldKey.value, worldName)
      ensures worldKey.Some? ==>
        worldKey.value in remote && forall e | e in remote[worldKey.value].archive :: EntryOf(disk, "world", e)
    {
      hide IsRun, Closed, Archives, HasPrefix, HasSuffix, IsKeyOf, EntryOf, NothingUploaded;
      StillNothing();
      assert [LEVEL_DAT] == ["level.dat"];
      var archived, archive := WriteTar(disk, WORLD_DIR);
      if archived && Storable(worldName) {
        ArchiveLayout(archive, disk, WORLD_DIR);
        worldKey := PutArchive(worldName, archive, calm);
      } else {
        Fail();
        worldKey := None;
      }
    }

    /** The upload itself, to the URL that the control plane hands out. */
    method PutArchive(worldName: string, archive: Archive, calm: bool) returns (worldKey: Option<Key>)
      requires Recorded() && phase.Finished? && Writable(disk) && Archives(archive, disk, WORLD_DIR)
      modifies this
      ensures Recorded() && old(run) <= run && store == old(store) && disk == old(disk)
      ensures if worldKey.Some? then phase == Uploaded(worldKey.value) && |run| > |old(run)| else phase == Idle
      ensures worldKey.Some? ==>
        && HasPrefix(worldKey.value, worldName + "/") && HasSuffix(worldKey.value, ".tar.zst") && IsKeyOf(worldKey.value, worldName)
        && worldKey.value in remote && remote[worldKey.value].archive == archive
      ensures calm ==> worldKey.Some?
    {
      hide IsRun, Closed, Archives, HasPrefix, HasSuffix, IsKeyOf, Writable;
      var stamp: string := *;
      var now: int := *;
      var stored: bool := *;
      if stored || calm {
        var key := worldName + "/" + stamp + ".tar.zst";
        NewKey(worldName, stamp);
        remote, uploads, phase := remote[key := Generation(archive, now)], uploads + {key}, Uploaded(key);
        assert Upload(run[|run| - 1], State());
        Record();
        var answered: bool := *;
        if answered || calm {
          return Some(key);
        }
      }
      Fail();
      worldKey := None;
    }

    /**
     What the cache is for: a launch of the generation that the launch before it has kept downloads
     nothing. Whatever others do to the stored generations meanwhile, it starts from the very world
     that was left on disk, and if nothing fails on its own account, it ends as its game does.
     */
    method LaunchAgain(isNewWorld: bool, worldName: string, resourceID: Key, first: GameEnd, second: GameEnd)
      returns (kept: bool, between: World, outcome: Outcome, ghost ready: nat)
      requires Recorded() && phase == Idle
      modifies this
      ensures Recorded() && phase == Idle && old(run) <= run
      ensures kept ==> EndsCalmly(outcome, second, worldName, disk)
      ensures kept && !outcome.Error? ==>
        |old(run)| <= ready < |run| && run[ready].phase.Ready? && run[ready].phase.fetched.None? && run[ready].disk == between
    {
      hide IsRun, Closed, Archives, Writable, Obtainable, Generations.IsLatest, Generations.Listing, ExtractedTree, IsKeyOf,
        NothingToFetch;
      ghost var uploaded: nat;
      outcome, ready, uploaded := Wrap(isNewWorld, worldName, resourceID, true, first);
      kept, between := outcome.Done? || outcome.Restart?, disk;
      if kept {
        UploadIsNotLatest(store[WORLD_KEY], worldName);
        outcome, ready, uploaded := Wrap(false, worldName, store[WORLD_KEY], true, second);
      }
    }

    /**
     The launch after one that was to be restarted but could not upload its world: it starts from what
     it downloads of the generation it selects, not from the world that was left on disk.
     */
    method RestartUnsavedWorld(worldName: string, resourceID: Key, calm: bool, game: GameEnd)
      returns (outcome: Outcome, ghost ready: nat)
      requires Recorded() && phase == Idle && WORLD_KEY !in store
      modifies this
      ensures Recorded() && old(run) <= run
      ensures outcome.Done? || outcome.Restart? || outcome.RestartUnsaved? ==>
        && |old(run)| <= ready < |run| && run[ready].phase.Ready? && !run[ready].phase.isNew
        && SelectedBy(old(remote), worldName, resourceID, run[ready].phase.id)
        && (resourceID != "" ==>
          run[ready].phase.fetched.Some? && ExtractedTree(run[ready].phase.fetched.value) == Some(run[ready].disk))
    {
      hide IsRun, Closed, ExtractedTree, Archives, Writable, Obtainable, Generations.IsLatest;
      ghost var uploaded: nat;
      outcome, ready, uploaded := Wrap(false, worldName, resourceID, calm, game);
      if outcome.Done? || outcome.Restart? || outcome.RestartUnsaved? {
        LatestHasName(Times(old(remote)), worldName, run[ready].phase.id);
      }
    }
  }

  const NO_WORLD: World := map[]

  lemma StillNothing()
    ensures forall a :: NothingUploaded(a, a)
    ensures forall a, b | NothingUploaded(a, b) :: a <= b
    ensures forall a, b, c | NothingUploaded(a, b) && NothingUploaded(b, c) :: NothingUploaded(a, c)
  {
  }

  lemma NewKey(worldName: string, stamp: string)
    ensures var key := worldName + "/" + stamp + ".tar.zst";
      IsKeyOf(key, worldName) && HasPrefix(key, worldName + "/") && HasSuffix(key, ".tar.zst")
  {
    var key := worldName + "/" + stamp + ".tar.zst";
    assert key[|key| - 8..] == ".tar.zst";
  }

  lemma UploadIsNotLatest(key: Key, worldName: string)
    requires IsKeyOf(key, worldName)
    ensures key != LATEST
  {
    var stamp :| key == worldName + "/" + stamp + ".tar.zst";
    assert key[|key| - 1] == ".tar.zst"[7] == 't';
    assert key[|key| - 2] == ".tar.zst"[6] == 's';
  }

  lemma LatestHasName(b: Generations.Bucket, worldName: string, id: Key)
    ensures Generations.IsLatest(b, worldName, id) ==> id != ""
  {
  }
}
