/**
 The concrete state repository below the world cache: a file of strings behind an RPC server, and a
 client that writes the JSON text of a value but does not decode it when it reads it back.
 */
module StateRepository {
  import opened Options
  import WorldArchive
  import opened Paths
  import Json

  /** Where writing the file fails, if it does. */
  datatype Fault = NoFault | BeforeTruncation | AfterTruncation

  function FileAfter(file: Option<map<string, string>>, states: map<string, string>, fault: Fault): Option<map<string, string>> {
    match fault
    case NoFault => Some(states)
    case BeforeTruncation => file
    case AfterTruncation => None
  }

  class StateStore {
    /** The states file: what it holds, or nothing if it cannot be decoded. A missing file is empty. */
    var file: Option<map<string, string>>

    constructor ()
      ensures file == Some(map[])
    {
      file := Some(map[]);
    }

    /** Writing truncates the file first; a failure before that changes nothing, one after it leaves no valid file. */
    method Save(states: map<string, string>, fault: Fault) returns (ok: bool)
      modifies this
      ensures file == FileAfter(old(file), states, fault)
      ensures ok <==> fault.NoFault?
    {
      ok := fault.NoFault?;
      match fault {
        case NoFault => file := Some(states);
        case BeforeTruncation =>
        case AfterTruncation => file := None;
      }
    }

    method Set(key: string, value: string, fault: Fault) returns (ok: bool)
      modifies this
      ensures ok <==> old(file).Some? && fault.NoFault?
      ensures file == if old(file).None? then None else FileAfter(old(file), old(file).value[key := value], fault)
    {
      if file.None? {
        return false;
      }
      ok := Save(file.value[key := value], fault);
    }

    method Get(key: string) returns (value: Option<string>)
      ensures value.Some? <==> file.Some?
      ensures value.Some? ==> value.value == if key in file.value then file.value[key] else ""
    {
      if file.None? {
        return None;
      }
      value := Some(if key in file.value then file.value[key] else "");
    }

    method Remove(key: string, fault: Fault) returns (ok: bool)
      modifies this
      ensures ok <==> old(file).Some? && fault.NoFault?
      ensures file == if old(file).None? then None else FileAfter(old(file), old(file).value - {key}, fault)
    {
      if file.None? {
        return false;
      }
      ok := Save(file.value - {key}, fault);
    }
  }

  class ExteriorStateRepository {
    const states: StateStore

    constructor (states: StateStore)
      ensures this.states == states
    {
      this.states := states;
    }

    /** `lost` says that the call, or its answer, is lost on the way. */
    method SetState(key: string, state: string, fault: Fault, lost: bool) returns (ok: bool)
      modifies states
      ensures ok ==> old(states.file).Some? && states.file == Some(old(states.file).value[key := Json.Quote(state)])
      ensures !lost ==> (ok <==> old(states.file).Some? && fault.NoFault?)
      ensures var stored := if old(states.file).None? then None
          else FileAfter(old(states.file), old(states.file).value[key := Json.Quote(state)], fault);
        states.file == stored || (lost && states.file == old(states.file))
    {
      var delivered: bool := *;
      if lost && !delivered {
        return false;
      }
      ok := states.Set(key, Json.Quote(state), fault);
      ok := ok && !lost;
    }

    method GetState(key: string, lost: bool) returns (state: Option<string>)
      ensures state.Some? <==> !lost && states.file.Some?
      ensures state.Some? ==> state.value == if key in states.file.value then states.file.value[key] else ""
    {
      if lost {
        return None;
      }
      state := states.Get(key);
    }
  }

  /** What is read back after a write is the value's JSON text, which is longer than the value. */
  method SetThenGet(r: ExteriorStateRepository, key: string, state: string, fault: Fault, lost: bool) returns (back: Option<string>)
    modifies r.states
    ensures back.Some? ==> back.value == Json.Quote(state) && back.value != state
    ensures old(r.states.file).Some? && fault.NoFault? && !lost ==> back.Some?
  {
    var ok := r.SetState(key, state, fault, lost);
    if !ok {
      return None;
    }
    back := r.GetState(key, false);
    Json.QuoteIsLonger(state);
  }

  /** So no generation that can be downloaded ever equals a key read back: with this repository no download is skipped. */
  lemma QuotedIsNoResource(value: string, resourceID: string)
    ensures WorldArchive.Downloadable(resourceID) ==> resourceID != Json.Quote(value)
  {
    var q := Json.Quote(value);
    assert q[|q| - 1] == '"';
    NotEndingInQuote(resourceID, ".zip");
    NotEndingInQuote(resourceID, ".tar.xz");
    NotEndingInQuote(resourceID, ".tar.zst");
  }

  lemma NotEndingInQuote(s: string, suffix: string)
    requires suffix != "" && suffix[|suffix| - 1] != '"'
    ensures HasSuffix(s, suffix) ==> s != "" && s[|s| - 1] != '"'
  {
    if HasSuffix(s, suffix) {
      assert s[|s| - |suffix|..][|suffix| - 1] == s[|s| - 1];
    }
  }
}
