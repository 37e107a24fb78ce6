/** Clearing the game's data directory when the Minecraft version changes, without touching the cached world. */
module ServerJar {
  import opened Options
  import opened Trees
  import opened Paths
  import opened StateRepository
  import Json

  const VERSION_KEY := "github.com/kofuk/premises/runner/mclauncher/middleware/serverjar.MinecraftVersion"

  predicate Spared(name: string) {
    name == "server.properties" || name == "world" || HasPrefix(name, "ss@")
  }

  class ServerJarMiddleware {
    /** The entries of the game's data directory. */
    var entries: map<string, Tree>
    const state: ExteriorStateRepository

    constructor (entries: map<string, Tree>, state: ExteriorStateRepository)
      ensures this.entries == entries && this.state == state
    {
      this.entries, this.state := entries, state;
    }

    /** `refused` are the entries that cannot be removed; the others are removed all the same. */
    method CleanupDataDir(listed: bool, refused: set<string>) returns (ok: bool)
      modifies this
      ensures entries == if listed then Cleared(old(entries), refused) else old(entries)
      ensures ok <==> listed && Removable(old(entries), refused)
      ensures listed ==> forall name :: name in entries <==>
        name in old(entries) &&
        (name == "server.properties" || name == "world" || BeginsWith(name, "ss@") || name in refused)
    {
      if !listed {
        return false;
      }
      forall name
        ensures HasPrefix(name, "ss@") <==> BeginsWith(name, "ss@")
      {
        PrefixAndSuffix(name, "ss@");
      }
      hide HasPrefix, BeginsWith;
      assert forall name :: Spared(name) <==> name == "server.properties" || name == "world" || BeginsWith(name, "ss@");
      hide Spared;
      ok := true;
      var rest := entries.Keys;
      ghost var was := entries;
      while rest != {}
        invariant rest <= was.Keys
        invariant entries == map name | name in was && (Spared(name) || name in refused || name in rest) :: was[name]
        invariant ok <==> forall name | name in was && name in refused && name !in rest :: Spared(name)
        decreases |rest|
      {
        hide Spared, HasPrefix, BeginsWith, Removable;
        var name :| name in rest;
        rest := rest - {name};
        if Spared(name) {
          continue;
        }
        if name in refused {
          ok := false;
        } else {
          entries := entries - {name};
        }
      }
    }

    /**
     `Wrap` up to the call of `next`, which is made if it returns true. `lost` says which of the two
     state calls are lost on the way, and `fault` where writing the states fails.
     */
    method Wrap(version: string, downloaded: bool, listed: bool, refused: set<string>, lost: (bool, bool), fault: Fault)
      returns (next: bool)
      modifies this, state.states
      ensures var same := !lost.0 && StoredVersion(old(state.states.file)) == Some(version);
        && (next <==> downloaded && (same || (listed && Removable(old(entries), refused))))
        && entries == if downloaded && !same && listed then Cleared(old(entries), refused) else old(entries)
      ensures HoldsJSON(old(state.states.file)) ==> HoldsJSON(state.states.file)
      ensures next && !lost.1 && fault.NoFault? && old(state.states.file).Some? ==>
        StoredVersion(state.states.file) == Some(Json.Quote(version))
      ensures next && !lost.1 && fault.NoFault? && old(state.states.file).Some? ==>
        var key := "github.com/kofuk/premises/runner/mclauncher/middleware/serverjar.MinecraftVersion";
        state.states.file.Some? && key in state.states.file.value && state.states.file.value[key] == Json.Quote(version)
    {
      hide Json.Quote;
      if !downloaded {
        return false;
      }
      var oldVersion := state.GetState(VERSION_KEY, lost.0);
      if oldVersion.None? || oldVersion.value != version {
        var cleaned := CleanupDataDir(listed, refused);
        if !cleaned {
          return false;
        }
      }
      StoringKeepsJSON(state.states.file, version, fault);
      var stored := state.SetState(VERSION_KEY, version, fault, lost.1);
      next := true;
    }

    /**
     Two launches, of which the first has its version stored. Even for the same version the second
     clears the directory again: it does not only if its version is the JSON text of the first one's.
     */
    method LaunchTwice(first: string, second: string, listed: bool, refused: set<string>, lost: bool, fault: Fault)
      returns (next: bool, ghost between: map<string, Tree>)
      requires state.states.file.Some?
      modifies this, state.states
      ensures next ==>
        if second == Json.Quote(first) && !lost then entries == between
        else entries == Cleared(between, refused) && OnlySpared(entries)
      ensures next && second == first ==> OnlySpared(entries)
    {
      hide Json.Quote;
      next := Wrap(first, true, listed, refused, (false, false), NoFault);
      between := entries;
      if next {
        Json.QuoteIsLonger(first);
        next := Wrap(second, true, listed, refused, (lost, false), fault);
        RemovableIsCleared(between, refused);
      }
    }
  }

  /** What clearing leaves: the spared entries, and those that cannot be removed. */
  function Cleared(entries: map<string, Tree>, refused: set<string>): map<string, Tree> {
    map name | name in entries && (Spared(name) || name in refused) :: entries[name]
  }

  /** Every entry that should go can be removed. */
  predicate Removable(entries: map<string, Tree>, refused: set<string>) {
    forall name | name in entries && name in refused :: Spared(name)
  }

  predicate OnlySpared(entries: map<string, Tree>) {
    forall name | name in entries :: Spared(name)
  }

  lemma RemovableIsCleared(entries: map<string, Tree>, refused: set<string>)
    ensures Removable(entries, refused) ==> OnlySpared(Cleared(entries, refused))
  {
  }

  /** Clearing never touches the cached world, or anything else that is spared. */
  lemma WorldIsSpared(entries: map<string, Tree>, refused: set<string>, name: string)
    ensures Spared("world")
    ensures Spared(name) ==>
      && (name in Cleared(entries, refused) <==> name in entries)
      && (name in entries ==> Cleared(entries, refused)[name] == entries[name])
  {
  }

  // ---- what the store can hold for the version ----

  /** What the repository answers for the version, if the file can be read. */
  function StoredVersion(file: Option<map<string, string>>): Option<string> {
    if file.None? then None
    else if VERSION_KEY in file.value then Some(file.value[VERSION_KEY])
    else Some("")
  }

  /** What `SetState` leaves in the store under the version's key. */
  ghost predicate HoldsJSON(file: Option<map<string, string>>) {
    file.Some? && VERSION_KEY in file.value ==> exists v :: file.value[VERSION_KEY] == Json.Quote(v)
  }

  lemma StoringKeepsJSON(file: Option<map<string, string>>, version: string, fault: Fault)
    ensures file.Some? && HoldsJSON(file) ==>
      HoldsJSON(FileAfter(file, file.value[VERSION_KEY := Json.Quote(version)], fault))
    ensures file.Some? ==> HoldsJSON(Some(file.value[VERSION_KEY := Json.Quote(version)]))
  {
    hide Json.Quote;
  }

  /**
   Over the texts this repository stores, a launch finds its version stored, and leaves the directory
   as it is, for exactly these versions: the empty one, and JSON texts of strings. No Minecraft
   version is one, so every launch clears the directory.
   */
  lemma VersionCanMatchExactly(version: string)
    ensures (exists file :: HoldsJSON(file) && StoredVersion(file) == Some(version)) <==>
      version == "" || exists v :: version == Json.Quote(v)
  {
    hide Json.Quote;
    if version == "" {
      var file: Option<map<string, string>> := Some(map[]);
      assert HoldsJSON(file) && StoredVersion(file) == Some(version);
    }
    if v :| version == Json.Quote(v) {
      var file := Some(map[VERSION_KEY := version]);
      assert HoldsJSON(file) && StoredVersion(file) == Some(version);
    }
  }

  /** A JSON text of a string begins with a quote. */
  lemma PlainVersionNeverMatches(file: Option<map<string, string>>, version: string)
    requires HoldsJSON(file) && version != "" && version[0] != '"'
    ensures StoredVersion(file) != Some(version)
  {
    VersionCanMatchExactly(version);
    forall v
      ensures version != Json.Quote(v)
    {
      assert Json.Quote(v)[0] == '"';
    }
  }
}
