/** The launcher's methods over the shared store: what they do to the lock and what they publish, path by path. */
module Launcher {
  import opened Options
  import opened InstanceLock

  const RUNNING := "running"
  const RUNNER_ID := "runner-id:default"

  /** An operation on the store, and whether it was answered with an error. */
  datatype Op =
    | GetSetOp(key: string, failed: bool)
    | SetOp(key: string, value: string, failed: bool)
    | GetOp(key: string, failed: bool)
    | DelOp(keys: seq<string>, failed: bool)

  datatype Reply = Failed | Missing | Found(value: string)

  class KeyValueStore {
    var data: map<string, string>
    ghost var ops: seq<Op>

    constructor ()
      ensures data == map[] && ops == []
    {
      data, ops := map[], [];
    }

    method GetSet(key: string, value: string) returns (old_: Reply)
      modifies this
      ensures ops == old(ops) + [GetSetOp(key, old_.Failed?)]
      ensures !old_.Failed? ==> data == old(data)[key := value]
      ensures old_.Failed? ==> data == old(data) || data == old(data)[key := value]
      ensures old_.Missing? ==> key !in old(data)
      ensures old_.Found? ==> key in old(data) && old_.value == old(data)[key]
    {
      var failed: bool, written: bool := *, *;
      old_ := if failed then Failed else if key in data then Found(data[key]) else Missing;
      if !failed || written {
        data := data[key := value];
      }
      ops := ops + [GetSetOp(key, failed)];
    }

    method Set(key: string, value: string) returns (ok: bool)
      modifies this
      ensures ops == old(ops) + [SetOp(key, value, !ok)]
      ensures ok ==> data == old(data)[key := value]
      ensures !ok ==> data == old(data) || data == old(data)[key := value]
    {
      ok := *;
      var written: bool := *;
      if ok || written {
        data := data[key := value];
      }
      ops := ops + [SetOp(key, value, !ok)];
    }

    method Get(key: string) returns (r: Reply)
      modifies this`ops
      ensures ops == old(ops) + [GetOp(key, r.Failed?)]
      ensures r.Missing? ==> key !in data
      ensures r.Found? ==> key in data && r.value == data[key]
    {
      var failed: bool := *;
      r := if failed then Failed else if key in data then Found(data[key]) else Missing;
      ops := ops + [GetOp(key, failed)];
    }

    method Del(keys: seq<string>) returns (ok: bool)
      modifies this
      ensures ops == old(ops) + [DelOp(keys, !ok)]
      ensures ok ==> data == old(data) - (set k | k in keys)
      ensures !ok ==> data == old(data) || data == old(data) - (set k | k in keys)
    {
      ok := *;
      var deleted: bool := *;
      if ok || deleted {
        data := data - (set k | k in keys);
      }
      ops := ops + [DelOp(keys, !ok)];
    }
  }

  datatype Message =
    | CreateRunner(progress: nat)
    | Manual
    | StopRunner(progress: nat)
    | Stopped
    | PrepareError
    | StopError

  /** What the game server provider is asked to do, and with which server. */
  datatype ServerCall = StopServer(cookie: string) | DeleteServer(cookie: string)

  /** Where a launch ends. */
  datatype LaunchEnd = BadConfig | NotRegistered | Launched | Unrecorded | WaitingForSetup

  /** Where a cleanup ends. */
  datatype CleanEnd =
    | CookieUnreadable
    | NoServer
    | NotStopped
    | NotDeleted
    | KeysLeft(hadServer: bool)
    | Cleaned(hadServer: bool)

  /** What a launch publishes before it ends. */
  function LaunchMessages(end: LaunchEnd): seq<Message> {
    match end
    case BadConfig => [PrepareError]
    case NotRegistered => [PrepareError]
    case Launched => [CreateRunner(0), CreateRunner(50)]
    case Unrecorded => [CreateRunner(0)]
    case WaitingForSetup => [CreateRunner(0), Manual]
  }

  /** What a cleanup publishes. Without a cookie there is no server to stop. */
  function CleanMessages(end: CleanEnd): seq<Message> {
    match end
    case CookieUnreadable => [StopRunner(0), StopError]
    case NoServer => [StopRunner(0), StopError]
    case NotStopped => [StopRunner(0), StopRunner(10), StopError]
    case NotDeleted => [StopRunner(0), StopRunner(10), StopRunner(60), StopError]
    case KeysLeft(true) => [StopRunner(0), StopRunner(10), StopRunner(60)]
    case KeysLeft(false) => [StopRunner(0)]
    case Cleaned(true) => [StopRunner(0), StopRunner(10), StopRunner(60), Stopped]
    case Cleaned(false) => [StopRunner(0), Stopped]
  }

  /** A step of launch `l` that leaves the lock's key alone. */
  predicate LocalStep(s: State, t: State, l: LaunchId) {
    Register(s, t, l) || GiveUp(s, t, l) || HandOver(s, t, l) || BeginClean(s, t, l) || Forget(s, t, l)
  }

  lemma IsStep(s: State, t: State, l: LaunchId)
    requires LocalStep(s, t, l)
    ensures StepOf(s, t, l, true) && t.running == s.running
  {
  }

  /** The keys a cleanup deletes before it releases the lock. */
  function RunnerKeys(authKey: string): seq<string> {
    [RUNNER_ID, "runner-info:default", "world-info:default", "runner:" + authKey]
  }

  /** Only a launch whose runner was never registered releases the lock itself. */
  predicate ReleasesItself(end: LaunchEnd) { end.BadConfig? || end.NotRegistered? }

  function ReleasesIn(ops: seq<Op>): nat {
    if ops == [] then 0 else ReleasesIn(ops[..|ops| - 1]) + Weight(ops[|ops| - 1])
  }

  function Weight(op: Op): nat { if IsRelease(op) then 1 else 0 }

  predicate IsRelease(op: Op) { op.DelOp? && op.keys == [RUNNING] }

  /**
   The end of a launch fits what it found and what its store operations were answered: first the
   runner's key is stored and then its server's cookie or, if it has none, its setup script.
   */
  predicate EndsAs(
    end: LaunchEnd, ops: seq<Op>, authKey: string, authCode: string, cookie: string, script: string, converted: bool, started: bool)
  {
    if !converted then end == BadConfig && |ops| == 1
    else
      && |ops| == 2 && ops[0] == SetOp("runner:" + authKey, "default", ops[0].failed)
      && (end == NotRegistered <==> ops[0].failed)
      && (!ops[0].failed ==>
        if started then
          && ops[1] == SetOp("runner-id:default", cookie, ops[1].failed)
          && end == if ops[1].failed then Unrecorded else Launched
        else end == WaitingForSetup && ops[1] == SetOp("startup:" + authCode, script, ops[1].failed))
  }

  /** What a cleanup asks for, if the cookie it has read is `cookie`. */
  function CleanCalls(end: CleanEnd, cookie: string): seq<ServerCall> {
    match end
    case CookieUnreadable => []
    case NoServer => []
    case NotStopped => [StopServer(cookie)]
    case NotDeleted => [StopServer(cookie), DeleteServer(cookie)]
    case KeysLeft(hadServer) => if hadServer then [StopServer(cookie), DeleteServer(cookie)] else []
    case Cleaned(hadServer) => if hadServer then [StopServer(cookie), DeleteServer(cookie)] else []
  }

  /** The end of a cleanup fits what it found and what its store operations were answered. */
  predicate CleansAs(
    end: CleanEnd, body: seq<Op>, authKey: string, hadServer: bool, available: bool, serverStopped: bool, serverDeleted: bool)
  {
    && body != [] && body[0].GetOp? && body[0].key == RUNNER_ID
    && if body[0].failed then end == CookieUnreadable && |body| == 1
       else if hadServer && !available then end == NoServer && |body| == 1
       else if hadServer && !serverStopped then end == NotStopped && |body| == 1
       else if hadServer && !serverDeleted then end == NotDeleted && |body| == 1
       else
         && |body| == 2 && body[1].DelOp? && body[1].keys == RunnerKeys(authKey)
         && end == if body[1].failed then KeysLeft(hadServer) else Cleaned(hadServer)
  }

  lemma OneOrTwoOps(a: Op, b: Op)
    ensures ReleasesIn([a]) == Weight(a) && ReleasesIn([a, b]) == Weight(a) + Weight(b)
  {
    assert [a, b][..1] == [a] && [a][..0] == [];
  }

  lemma CleaningReleasesNothing(
    end: CleanEnd, body: seq<Op>, authKey: string, hadServer: bool, available: bool, serverStopped: bool, serverDeleted: bool)
    requires CleansAs(end, body, authKey, hadServer, available, serverStopped, serverDeleted)
    ensures ReleasesIn(body) == 0
  {
    OneOrTwoOps(body[0], body[|body| - 1]);
    assert body == if |body| == 1 then [body[0]] else [body[0], body[1]];
  }

  /** Another launch's step leaves launch `l` where it is. */
  predicate SameFor(s: State, t: State, l: LaunchId) {
    && (l in t.phases <==> l in s.phases) && (l in s.phases ==> t.phases[l] == s.phases[l])
    && (l in t.known <==> l in s.known)
  }

  /** The launch has been handed over, and possibly been cleaned up after since. */
  predicate WithRunner(s: State, l: LaunchId) {
    (InPhase(s, l, HandedOver) && l in s.known) || InPhase(s, l, Cleaning) || InPhase(s, l, Released)
  }

  lemma StaysWithRunner(run: seq<State>, t: State, m: LaunchId, l: LaunchId)
    requires IsRun(run, true) && StepOf(run[|run| - 1], t, m, true) && WithRunner(run[|run| - 1], l)
    ensures WithRunner(t, l) && (InPhase(t, l, HandedOver) ==> InPhase(run[|run| - 1], l, HandedOver))
  {
    RunKeepsInv(run);
    hide IsRun, Alternates;
  }

  /** The key is there or not, as the lock's machine has it; nothing but "true" is ever stored under it. */
  predicate InState(data: map<string, string>, s: State) {
    && (RUNNING in data <==> s.running)
    && (RUNNING in data ==> data[RUNNING] == "true")
  }

  lemma OtherKeys(authKey: string, authCode: string)
    ensures "runner:" + authKey != RUNNING && "startup:" + authCode != RUNNING && RUNNER_ID != RUNNING
    ensures "runner:" + authKey != RUNNER_ID && "runner:" + authKey != "startup:" + authCode
    ensures RUNNING !in RunnerKeys(authKey)
  {
    assert ("runner:" + authKey)[4] == 'e' && ("runner:" + authKey)[6] == ':' && ("startup:" + authCode)[0] == 's';
  }

  lemma KeepsState(data: map<string, string>, after: map<string, string>, s: State)
    requires InState(data, s) && (RUNNING in after <==> RUNNING in data) && (RUNNING in data ==> after[RUNNING] == data[RUNNING])
    ensures InState(after, s)
  {
  }

  class LauncherService {
    const kvs: KeyValueStore
    var published: seq<Message>
    /** Every call to stop or delete a server. */
    var calls: seq<ServerCall>
    /** Every state of the lock so far. */
    var run: seq<State>

    constructor (kvs: KeyValueStore, s: State)
      requires Init(s) && InState(kvs.data, s)
      ensures this.kvs == kvs && published == [] && calls == [] && Recorded() && Now() == s
    {
      this.kvs, published, calls, run := kvs, [], [], [s];
    }

    method Publish(m: Message)
      modifies this`published
      ensures published == old(published) + [m]
    {
      published := published + [m];
    }

    /** What the service and the store have done is a run of the lock's machine. */
    ghost predicate Recorded()
      reads this, kvs
    {
      run != [] && IsRun(run, true) && InState(kvs.data, run[|run| - 1])
    }

    function Now(): State
      requires run != []
      reads this
    {
      run[|run| - 1]
    }

    method Record(t: State, l: LaunchId)
      requires run != [] && IsRun(run, true) && StepOf(Now(), t, l, true) && InState(kvs.data, t)
      modifies this`run
      ensures Recorded() && run == old(run) + [t] && Now() == t
    {
      assert Step(Now(), t, true);
      hide Step, StepOf, InState, Init;
      run := run + [t];
    }

    /** Between two operations of launch `l` other launches take any number of steps. */
    method Between(l: LaunchId)
      requires Recorded()
      modifies this`run, kvs`data
      ensures Recorded() && old(run) <= run && SameFor(old(Now()), Now(), l)
      ensures kvs.data - {RUNNING} == old(kvs.data) - {RUNNING}
    {
      hide IsRun, StepOf, InState;
      var steps: nat := *;
      while steps > 0
        invariant Recorded() && old(run) <= run && SameFor(old(Now()), Now(), l)
        invariant kvs.data - {RUNNING} == old(kvs.data) - {RUNNING}
      {
        StepOfOther(l);
        steps := steps - 1;
      }
    }

    method StepOfOther(l: LaunchId)
      requires Recorded()
      modifies this`run, kvs`data
      ensures Recorded() && old(run) <= run && SameFor(old(Now()), Now(), l)
      ensures kvs.data - {RUNNING} == old(kvs.data) - {RUNNING}
    {
      hide IsRun;
      var t: State, other: LaunchId := *, *;
      if other != l && StepOf(Now(), t, other, true) {
        kvs.data := if t.running then kvs.data[RUNNING := "true"] else kvs.data - {RUNNING};
        Record(t, other);
      }
    }

    /**
     Once the launch has been handed over, its own cleanup can take steps in between as well, and change
     what is stored under any key but the lock's.
     */
    method BetweenWithCleanup(l: LaunchId)
      requires Recorded() && WithRunner(Now(), l)
      modifies this`run, kvs`data
      ensures Recorded() && old(run) <= run && WithRunner(Now(), l)
      ensures InPhase(Now(), l, HandedOver) ==> kvs.data - {RUNNING} == old(kvs.data) - {RUNNING} && InPhase(old(Now()), l, HandedOver)
    {
      hide IsRun, StepOf, InState, WithRunner;
      var steps: nat := *;
      while steps > 0
        invariant Recorded() && old(run) <= run && WithRunner(Now(), l)
        invariant InPhase(Now(), l, HandedOver) ==>
          kvs.data - {RUNNING} == old(kvs.data) - {RUNNING} && InPhase(old(Now()), l, HandedOver)
      {
        AnyStep(l);
        steps := steps - 1;
      }
    }

    method AnyStep(l: LaunchId)
      requires Recorded() && WithRunner(Now(), l)
      modifies this`run, kvs`data
      ensures Recorded() && old(run) <= run && WithRunner(Now(), l)
      ensures InPhase(Now(), l, HandedOver) ==> kvs.data - {RUNNING} == old(kvs.data) - {RUNNING} && InPhase(old(Now()), l, HandedOver)
    {
      hide IsRun, StepOf, WithRunner;
      var t: State, other: LaunchId, data: map<string, string> := *, *, *;
      if StepOf(Now(), t, other, true) {
        StaysWithRunner(run, t, other, l);
        if InPhase(t, l, HandedOver) {
          data := kvs.data;
        }
        kvs.data := if t.running then data[RUNNING := "true"] else data - {RUNNING};
        Record(t, other);
      }
    }

    /** `lockInstance`: one atomic get-and-set, which accepts the launch or refuses it. */
    method LockInstance(l: LaunchId) returns (ok: bool, ghost failed: bool)
      requires Recorded() && l !in Now().phases
      modifies this`run, kvs
      ensures Recorded() && old(run) <= run
      ensures if ok then Accept(old(Now()), Now(), l) else Refuse(old(Now()), Now())
      ensures ok <==> "running" !in old(kvs.data) && !failed
      ensures ok ==> "running" in kvs.data
      ensures kvs.ops == old(kvs.ops) + [GetSetOp(RUNNING, failed)]
      ensures kvs.data - {RUNNING} == old(kvs.data) - {RUNNING}
    {
      hide IsRun;
      var r := kvs.GetSet(RUNNING, "true");
      ok := r.Missing? || (r.Found? && r.value != "true");
      failed := r.Failed?;
      var s := Now();
      Record(
        if ok then s.(running := true, phases := s.phases[l := Preparing], history := s.history + [Acquire(l)])
        else s.(running := RUNNING in kvs.data), l);
    }

    /** `releaseInstance`: one attempt to delete the key. */
    method ReleaseInstance(l: LaunchId) returns (ok: bool)
      requires Recorded() && (InPhase(Now(), l, GivingUp) || InPhase(Now(), l, Cleaning))
      modifies this`run, kvs
      ensures Recorded() && old(run) <= run && AttemptRelease(old(Now()), Now(), l)
      ensures kvs.ops == old(kvs.ops) + [DelOp([RUNNING], !ok)]
      ensures ok ==> "running" !in kvs.data
      ensures kvs.data - {RUNNING} == old(kvs.data) - {RUNNING}
    {
      hide IsRun;
      ok := kvs.Del([RUNNING]);
      var s := Now();
      assert RUNNING in kvs.data ==> RUNNING in old(kvs.data);
      Record(s.(
        running := RUNNING in kvs.data,
        phases := s.phases[l := if s.phases[l] == GivingUp then GaveUp else Released],
        history := s.history + [Release(l)]), l);
    }

    /** `Launch`: an invalid configuration does not touch the store; an accepted launch goes on in `LaunchServer`. */
    method Launch(valid: bool, l: LaunchId) returns (accepted: bool, ghost failed: bool)
      requires Recorded() && l !in Now().phases
      modifies this`run, kvs
      ensures Recorded() && old(run) <= run
      ensures if accepted then InPhase(Now(), l, Preparing) else l !in Now().phases
      ensures accepted <==> valid && !old(Now()).running && !failed
      ensures kvs.ops == old(kvs.ops) + if valid then [GetSetOp(RUNNING, failed)] else []
    {
      hide IsRun;
      failed := false;
      if !valid {
        return false, failed;
      }
      accepted, failed := LockInstance(l);
    }

    /** The launch gives up and releases the lock. */
    method GiveUpAndRelease(l: LaunchId) returns (released: bool)
      requires Recorded() && InPhase(Now(), l, Preparing)
      modifies this`published, this`run, kvs
      ensures Recorded() && old(run) <= run && InPhase(Now(), l, GaveUp)
      ensures published == old(published) + [PrepareError]
      ensures kvs.ops == old(kvs.ops) + [DelOp([RUNNING], !released)]
    {
      hide IsRun, StepOf;
      Publish(PrepareError);
      var s := Now();
      var t := s.(phases := s.phases[l := GivingUp]);
      assert GiveUp(s, t, l) && StepOf(s, t, l, true) by {
        IsStep(s, t, l);
      }
      Record(t, l);
      Between(l);
      released := ReleaseInstance(l);
    }

    /** The launch's own steps that leave the key alone. */
    method Advance(t: State, l: LaunchId)
      requires Recorded() && LocalStep(Now(), t, l)
      modifies this`run
      ensures Recorded() && old(run) <= run && Now() == t
    {
      hide IsRun, StepOf;
      IsStep(Now(), t, l);
      Record(t, l);
    }

    /** Setting a key other than the lock's. */
    method Store(key: string, value: string) returns (ok: bool)
      requires Recorded() && key != RUNNING
      modifies kvs
      ensures Recorded() && kvs.ops == old(kvs.ops) + [SetOp(key, value, !ok)]
      ensures ok ==> key in kvs.data && kvs.data[key] == value
      ensures forall k | k != key :: (k in kvs.data <==> k in old(kvs.data)) && (k in kvs.data ==> kvs.data[k] == old(kvs.data)[k])
    {
      hide IsRun;
      ok := kvs.Set(key, value);
      KeepsState(old(kvs.data), kvs.data, Now());
    }

    /**
     `launchServer`, which runs on its own once the launch has been accepted. `converted`, `available`
     and `serverStarted` say how the configuration and the machine turn out. It gives up and releases
     the lock, or hands the launch over and leaves the lock to the cleanup, which can come in before it ends.
     */
    method LaunchServer(
      l: LaunchId, authKey: string, authCode: string, cookie: string, script: string,
      converted: bool, available: bool, serverStarted: bool)
      returns (end: LaunchEnd, ghost ops: seq<Op>)
      requires Recorded() && InPhase(Now(), l, Preparing)
      modifies this`published, this`run, kvs
      ensures Recorded() && old(run) <= run
      ensures if ReleasesItself(end) then InPhase(Now(), l, GaveUp)
        else WithRunner(Now(), l) && (!InPhase(Now(), l, Released) ==> "running" in kvs.data)
      ensures EndsAs(end, ops, authKey, authCode, cookie, script, converted, available && serverStarted)
      ensures published == old(published) + LaunchMessages(end)
      ensures kvs.ops == old(kvs.ops) + ops
      ensures ReleasesIn(ops) == if ReleasesItself(end) then 1 else 0
      ensures end.BadConfig? || end.NotRegistered? ==>
        && ops != [] && ops[|ops| - 1].DelOp? && ops[|ops| - 1].keys == ["running"] && InPhase(Now(), l, GaveUp)
        && published == old(published) + [PrepareError]
      ensures end.Launched? ==> published == old(published) + [CreateRunner(0), CreateRunner(50)]
      ensures end.WaitingForSetup? ==> published == old(published) + [CreateRunner(0), Manual]
      ensures end.Launched? ==> "runner-id:default" in kvs.data && kvs.data["runner-id:default"] == cookie
      ensures InPhase(Now(), l, HandedOver) ==> "runner:" + authKey in kvs.data && kvs.data["runner:" + authKey] == "default"
    {
      hide IsRun, ReleasesIn, InState;
      OtherKeys(authKey, authCode);
      if !converted {
        var released := GiveUpAndRelease(l);
        OneOrTwoOps(DelOp([RUNNING], !released), DelOp([RUNNING], !released));
        return BadConfig, [DelOp([RUNNING], !released)];
      }
      var runnerKey := "runner:" + authKey;
      var registered := RegisterRunner(l, runnerKey);
      if !registered {
        var released := GiveUpAndRelease(l);
        OneOrTwoOps(SetOp(runnerKey, "default", true), DelOp([RUNNING], !released));
        return NotRegistered, [SetOp(runnerKey, "default", true), DelOp([RUNNING], !released)];
      }
      ghost var op;
      end, op := StartRunner(l, runnerKey, authCode, cookie, script, available, serverStarted);
      OneOrTwoOps(SetOp(runnerKey, "default", false), op);
      ops := [SetOp(runnerKey, "default", false), op];
    }

    /**
     `launchServer` once the runner is registered: the last store operation says where its server, or
     its setup script, is to be found.
     */
    method StartRunner(
      l: LaunchId, runnerKey: string, authCode: string, cookie: string, script: string, available: bool, serverStarted: bool)
      returns (end: LaunchEnd, ghost op: Op)
      requires Recorded() && InPhase(Now(), l, Preparing) && l in Now().known
      requires runnerKey != RUNNING && runnerKey != RUNNER_ID && runnerKey != "startup:" + authCode
      requires runnerKey in kvs.data && kvs.data[runnerKey] == "default"
      modifies this`published, this`run, kvs
      ensures Recorded() && old(run) <= run
      ensures WithRunner(Now(), l) && (!InPhase(Now(), l, Released) ==> "running" in kvs.data)
      ensures op == if available && serverStarted then SetOp("runner-id:default", cookie, op.failed)
        else SetOp("startup:" + authCode, script, op.failed)
      ensures end == if !(available && serverStarted) then WaitingForSetup else if op.failed then Unrecorded else Launched
      ensures published == old(published) + LaunchMessages(end)
      ensures kvs.ops == old(kvs.ops) + [op]
      ensures !op.failed ==> op.key in kvs.data && kvs.data[op.key] == if available && serverStarted then cookie else script
      ensures InPhase(Now(), l, HandedOver) ==> runnerKey in kvs.data && kvs.data[runnerKey] == "default"
    {
      hide IsRun, InState, WithRunner;
      OtherKeys("", authCode);
      Publish(CreateRunner(0));
      HandOverToRunner(l, runnerKey);
      var key, value := if available && serverStarted then RUNNER_ID else "startup:" + authCode,
        if available && serverStarted then cookie else script;
      if !(available && serverStarted) {
        Publish(Manual);
      }
      var stored := Store(key, value);
      op := SetOp(key, value, !stored);
      if available && serverStarted {
        end := if stored then Launched else Unrecorded;
        if stored {
          Publish(CreateRunner(50));
        }
      } else {
        end := WaitingForSetup;
      }
      RunnersLockIsHeld(l);
    }

    /**
     A launch, and the cleanup its runner asks for later: what is stopped and deleted is the server
     that was started.
     */
    method LaunchAndClean(
      l: LaunchId, authKey: string, authCode: string, cookie: string, script: string,
      availableLater: bool, serverStopped: bool, serverDeleted: bool)
      returns (launched: LaunchEnd, cleaned: Option<CleanEnd>)
      requires Recorded() && InPhase(Now(), l, Preparing)
      modifies this, kvs
      ensures Recorded() && old(run) <= run
      ensures cleaned.Some? ==> InPhase(Now(), l, Released)
      ensures launched.Launched? && cleaned.Some? ==> calls == old(calls) + CleanCalls(cleaned.value, cookie)
      ensures launched.Launched? && cleaned.Some? && (cleaned.value.Cleaned? || cleaned.value.KeysLeft?) ==>
        calls == old(calls) + [StopServer(cookie), DeleteServer(cookie)]
    {
      hide IsRun, InState, StepOf, CleanMessages, LaunchMessages, ReleasesIn;
      ghost var ops, body, released;
      cleaned := None;
      launched, ops := LaunchServer(l, authKey, authCode, cookie, script, true, true, true);
      if InPhase(Now(), l, HandedOver) {
        var end;
        end, body, released := Clean(l, authKey, availableLater, serverStopped, serverDeleted);
        cleaned := Some(end);
      }
    }

    lemma RunnersLockIsHeld(l: LaunchId)
      requires Recorded() && WithRunner(Now(), l)
      ensures !InPhase(Now(), l, Released) ==> RUNNING in kvs.data
    {
      hide IsRun, InState;
      if !InPhase(Now(), l, Released) {
        LockIsHeld(run, l);
        KeyIsThere();
      }
    }

    /** The runner's key is stored; if that fails it may have been stored all the same. */
    method RegisterRunner(l: LaunchId, runnerKey: string) returns (registered: bool)
      requires Recorded() && InPhase(Now(), l, Preparing) && runnerKey != RUNNING
      modifies this`run, kvs
      ensures Recorded() && old(run) <= run && InPhase(Now(), l, Preparing)
      ensures registered ==> l in Now().known && runnerKey in kvs.data && kvs.data[runnerKey] == "default"
      ensures kvs.ops == old(kvs.ops) + [SetOp(runnerKey, "default", !registered)]
    {
      hide IsRun, InState, StepOf;
      Between(l);
      registered := Store(runnerKey, "default");
      if runnerKey in kvs.data {
        Advance(Now().(known := Now().known + {l}), l);
      }
      ghost var stored := kvs.data;
      Between(l);
      SameOtherKey(stored, kvs.data, runnerKey);
    }

    method HandOverToRunner(l: LaunchId, ghost runnerKey: string)
      requires Recorded() && InPhase(Now(), l, Preparing) && l in Now().known
      requires runnerKey != RUNNING && runnerKey in kvs.data && kvs.data[runnerKey] == "default"
      modifies this`run, kvs`data
      ensures Recorded() && old(run) <= run && WithRunner(Now(), l)
      ensures InPhase(Now(), l, HandedOver) ==> runnerKey in kvs.data && kvs.data[runnerKey] == "default"
    {
      hide IsRun, InState, StepOf;
      Advance(Now().(phases := Now().phases[l := HandedOver]), l);
      ghost var stored := kvs.data;
      BetweenWithCleanup(l);
      if InPhase(Now(), l, HandedOver) {
        SameOtherKey(stored, kvs.data, runnerKey);
      }
    }

    lemma KeyIsThere()
      requires Recorded() && Now().running
      ensures RUNNING in kvs.data
    {
    }

    /**
     `Clean`, which the runner's shutdown report starts: the launch goes from handed over to released
     by exactly one attempt to delete the key, the last store operation on every path.
     */
    method Clean(l: LaunchId, authKey: string, available: bool, serverStopped: bool, serverDeleted: bool)
      returns (end: CleanEnd, ghost body: seq<Op>, ghost released: bool)
      requires Recorded() && InPhase(Now(), l, HandedOver) && l in Now().known
      modifies this, kvs
      ensures Recorded() && old(run) <= run && InPhase(Now(), l, Released)
      ensures CleansAs(end, body, authKey, RUNNER_ID in old(kvs.data), available, serverStopped, serverDeleted)
      ensures calls == old(calls) + CleanCalls(end,
        if "runner-id:default" in old(kvs.data) then old(kvs.data)["runner-id:default"] else "")
      ensures published == old(published) + CleanMessages(end)
      ensures kvs.ops == old(kvs.ops) + body + [DelOp([RUNNING], !released)] && ReleasesIn(body) == 0
      ensures released ==> "running" !in kvs.data
      ensures end == Cleaned(true) ==> published == old(published) + [StopRunner(0), StopRunner(10), StopRunner(60), Stopped]
      ensures end == Cleaned(false) ==> published == old(published) + [StopRunner(0), Stopped]
      ensures end.Cleaned? ==> l !in Now().known && forall k | k in RunnerKeys(authKey) :: k !in kvs.data
      ensures |body| == 1 ==> l in Now().known
    {
      CleanedMessages(old(published));
      hide IsRun, InState, StepOf, RunnerKeys, ReleasesIn, CleansAs, CleanMessages, CleanCalls;
      OtherKeys(authKey, "");
      Advance(Now().(phases := Now().phases[l := Cleaning]), l);
      end, body := CleanUp(l, authKey, available, serverStopped, serverDeleted);
      CleaningReleasesNothing(end, body, authKey, RUNNER_ID in old(kvs.data), available, serverStopped, serverDeleted);
      ghost var cleaned := kvs.data;
      var done := DeferredRelease(l);
      released := done;
      StillGone(RunnerKeys(authKey), cleaned, kvs.data);
    }

    method DeferredRelease(l: LaunchId) returns (released: bool)
      requires Recorded() && InPhase(Now(), l, Cleaning)
      modifies this`run, kvs
      ensures Recorded() && old(run) <= run && InPhase(Now(), l, Released)
      ensures l in Now().known <==> l in old(Now().known)
      ensures kvs.ops == old(kvs.ops) + [DelOp([RUNNING], !released)]
      ensures released ==> "running" !in kvs.data
      ensures kvs.data - {RUNNING} == old(kvs.data) - {RUNNING}
    {
      hide IsRun, InState, StepOf;
      Between(l);
      released := ReleaseInstance(l);
    }

    /** `Clean` up to the deferred release; it leaves the lock's key as it is. */
    method CleanUp(l: LaunchId, authKey: string, available: bool, serverStopped: bool, serverDeleted: bool)
      returns (end: CleanEnd, ghost body: seq<Op>)
      requires Recorded() && InPhase(Now(), l, Cleaning) && l in Now().known
      modifies this, kvs
      ensures Recorded() && old(run) <= run && InPhase(Now(), l, Cleaning) && RUNNING in kvs.data
      ensures CleansAs(end, body, authKey, RUNNER_ID in old(kvs.data), available, serverStopped, serverDeleted)
      ensures calls == old(calls) + CleanCalls(end,
        if "runner-id:default" in old(kvs.data) then old(kvs.data)["runner-id:default"] else "")
      ensures published == old(published) + CleanMessages(end)
      ensures kvs.ops == old(kvs.ops) + body
      ensures end.Cleaned? ==> l !in Now().known && forall k | k in RunnerKeys(authKey) :: k !in kvs.data
      ensures |body| == 1 ==> l in Now().known
    {
      hide IsRun, InState, StepOf, RunnerKeys, CleanMessages;
      LockIsHeld(run, l);
      KeyIsThere();
      Publish(StopRunner(0));
      var cookie := kvs.Get(RUNNER_ID);
      body := [GetOp(RUNNER_ID, cookie.Failed?)];
      if !cookie.Missing? {
        var failure := StopRunningServer(cookie, available, serverStopped, serverDeleted);
        if failure.Some? {
          AfterFirstMessage(old(published), failure.value);
          return failure.value, body;
        }
      }
      ghost var before := if cookie.Missing? then [] else [StopRunner(10), StopRunner(60)];
      assert cookie.Missing? ==> published + [] == published;
      var unset := UnsetRunner(l, authKey);
      body := body + [DelOp(RunnerKeys(authKey), !unset)];
      end := if unset then Cleaned(!cookie.Missing?) else KeysLeft(!cookie.Missing?);
      AfterFirstMessage(old(published), end);
      AllMessages(old(published), before, end);
    }

    /** `Clean` while there is a server: where it stops, if it does not get through. */
    method StopRunningServer(cookie: Reply, available: bool, serverStopped: bool, serverDeleted: bool)
      returns (failure: Option<CleanEnd>)
      requires !cookie.Missing?
      modifies this`published, this`calls
      ensures failure ==
        if cookie.Failed? then Some(CookieUnreadable)
        else if !available then Some(NoServer)
        else if !serverStopped then Some(NotStopped)
        else if !serverDeleted then Some(NotDeleted)
        else None
      ensures published == old(published) +
        if failure.Some? then CleanMessages(failure.value)[1..] else [StopRunner(10), StopRunner(60)]
      ensures calls == old(calls) +
        if cookie.Failed? || !available then []
        else if !serverStopped then [StopServer(cookie.value)]
        else [StopServer(cookie.value), DeleteServer(cookie.value)]
    {
      if cookie.Failed? {
        Publish(StopError);
        return Some(CookieUnreadable);
      }
      if !available {
        Publish(StopError);
        return Some(NoServer);
      }
      Publish(StopRunner(10));
      calls := calls + [StopServer(cookie.value)];
      if !serverStopped {
        Publish(StopError);
        return Some(NotStopped);
      }
      Publish(StopRunner(60));
      calls := calls + [DeleteServer(cookie.value)];
      if !serverDeleted {
        Publish(StopError);
        return Some(NotDeleted);
      }
      failure := None;
    }

    /** `Clean` from its label on. */
    method UnsetRunner(l: LaunchId, authKey: string) returns (unset: bool)
      requires Recorded() && InPhase(Now(), l, Cleaning)
      modifies this`published, this`run, kvs
      ensures Recorded() && old(run) <= run && InPhase(Now(), l, Cleaning) && RUNNING in kvs.data
      ensures published == old(published) + if unset then [Stopped] else []
      ensures unset ==> forall k | k in {"runner-id:default", "runner-info:default", "world-info:default", "runner:" + authKey} ::
        k !in kvs.data
      ensures kvs.ops == old(kvs.ops) + [DelOp(RunnerKeys(authKey), !unset)]
      ensures unset ==> l !in Now().known && forall k | k in RunnerKeys(authKey) :: k !in kvs.data
    {
      hide IsRun, StepOf;
      OtherKeys(authKey, "");
      unset := kvs.Del(RunnerKeys(authKey));
      KeepsState(old(kvs.data), kvs.data, Now());
      if "runner:" + authKey !in kvs.data {
        Advance(Now().(known := Now().known - {l}), l);
      }
      if unset {
        Publish(Stopped);
      }
      LockIsHeld(run, l);
    }
  }

  lemma CleanedMessages(was: seq<Message>)
    ensures was + CleanMessages(Cleaned(true)) == was + [StopRunner(0), StopRunner(10), StopRunner(60), Stopped]
    ensures was + CleanMessages(Cleaned(false)) == was + [StopRunner(0), Stopped]
  {
  }

  lemma AfterFirstMessage(was: seq<Message>, end: CleanEnd)
    ensures was + [StopRunner(0)] + CleanMessages(end)[1..] == was + CleanMessages(end)
  {
  }

  lemma AllMessages(was: seq<Message>, middle: seq<Message>, end: CleanEnd)
    requires end.Cleaned? || end.KeysLeft?
    requires middle == if end.hadServer then [StopRunner(10), StopRunner(60)] else []
    ensures was + [StopRunner(0)] + middle + (if end.Cleaned? then [Stopped] else []) == was + CleanMessages(end)
  {
  }

  lemma SameOtherKey(before: map<string, string>, after: map<string, string>, k: string)
    requires before - {RUNNING} == after - {RUNNING} && k != RUNNING
    ensures (k in before <==> k in after) && (k in before ==> before[k] == after[k])
  {
    assert k in before <==> k in before - {RUNNING};
    assert k in before ==> (before - {RUNNING})[k] == before[k];
    assert k in after <==> k in after - {RUNNING};
    assert k in after ==> (after - {RUNNING})[k] == after[k];
  }

  lemma StillGone(keys: seq<string>, before: map<string, string>, after: map<string, string>)
    requires before - {RUNNING} == after - {RUNNING} && RUNNING !in keys
    ensures (forall k | k in keys :: k !in before) ==> forall k | k in keys :: k !in after
  {
    forall k | k in keys
      ensures k in after <==> k in before
    {
      assert k in after - {RUNNING} <==> k in before - {RUNNING};
    }
  }

  /** An unreleased launch holds the lock. */
  lemma LockIsHeld(run: seq<State>, l: LaunchId)
    requires IsRun(run, true)
    requires var s := run[|run| - 1]; l in s.phases && !Over(s.phases[l])
    ensures run[|run| - 1].running
  {
    OneLaunchAtATime(run, l, l);
  }
}
