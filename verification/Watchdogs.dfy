/**
 The monitoring loop and its three watchdogs, driven by a tick counter. What the outside answers at
 a tick is an input: whether the server can be dialled, what its player list says, and whether the
 one-time initialisation goes through.
 */
module Watchdogs {
  import opened Options

  /** `players` is None when listing them fails. */
  datatype Input = Input(healthy: bool, players: Option<nat>, initSucceeds: bool)

  datatype StatusEvent = Loading | Running

  /** Everything the watchdogs remember, and everything they have sent. */
  datatype Monitor = Monitor(
    ticks: nat,
    live: bool,
    initialised: bool,
    lastActive: int,
    prevOnline: bool,
    statuses: seq<StatusEvent>,
    inits: nat,
    started: nat,
    stops: set<nat>)

  const INITIAL := Monitor(0, false, false, -1, false, [Loading], 0, 0, {})

  // ---- one tick ----

  /** The liveness watchdog dials every 10 ticks while the server is online, every 3 while it is not. */
  function LiveNext(live: bool, tick: nat, healthy: bool): bool {
    if live then if tick % 10 != 0 then true else healthy
    else if tick % 3 != 0 then false else healthy
  }

  /** The player list is asked for. */
  predicate Listed(tick: nat, live: bool, timeoutMinutes: int) {
    timeoutMinutes > 0 && live && tick % 60 == 0
  }

  /** The tick the activeness watchdog counts from. */
  function ActiveNext(lastActive: int, tick: nat, live: bool, players: Option<nat>, timeoutMinutes: int): int {
    if timeoutMinutes <= 0 || !live then lastActive
    else if lastActive < 0 then tick
    else if Listed(tick, live, timeoutMinutes) && players.Some? && players.value != 0 then tick
    else lastActive
  }

  predicate StopsNow(lastActive: int, tick: nat, live: bool, players: Option<nat>, timeoutMinutes: int) {
    && Listed(tick, live, timeoutMinutes) && players == Some(0)
    && (tick - ActiveNext(lastActive, tick, live, players, timeoutMinutes)) / 60 > timeoutMinutes
  }

  /** The watchdogs one after the other, then a status event on a change. */
  function Tick(m: Monitor, input: Input, timeoutMinutes: int): Monitor {
    var live := LiveNext(m.live, m.ticks, input.healthy);
    var initNow := live && !m.initialised;
    Monitor(
      m.ticks + 1,
      live,
      m.initialised || initNow,
      ActiveNext(m.lastActive, m.ticks, live, input.players, timeoutMinutes),
      live,
      if m.prevOnline == live then m.statuses else m.statuses + [if live then Running else Loading],
      m.inits + (if initNow then 1 else 0),
      m.started + (if initNow && input.initSucceeds then 1 else 0),
      m.stops + if StopsNow(m.lastActive, m.ticks, live, input.players, timeoutMinutes) then {m.ticks} else {})
  }

  /** The monitor after all the inputs. */
  function After(inputs: seq<Input>, timeoutMinutes: int): (m: Monitor)
    ensures m.ticks == |inputs|
  {
    if inputs == [] then INITIAL
    else Tick(After(inputs[..|inputs| - 1], timeoutMinutes), inputs[|inputs| - 1], timeoutMinutes)
  }

  // ---- the code ----

  class Status {
    var online: bool

    constructor ()
      ensures !online
    {
      online := false;
    }
  }

  class LivenessWatchdog {
    var prevOnline: bool

    constructor ()
      ensures !prevOnline
    {
      prevOnline := false;
    }

    method Check(watchID: nat, status: Status, healthy: bool)
      modifies this, status
      ensures prevOnline == LiveNext(old(prevOnline), watchID, healthy)
      ensures prevOnline == if watchID % (if old(prevOnline) then 10 else 3) == 0 then healthy else old(prevOnline)
      ensures status.online == prevOnline
    {
      if prevOnline {
        if watchID % 10 != 0 {
          status.online := prevOnline;
          return;
        }
      } else {
        if watchID % 3 != 0 {
          status.online := prevOnline;
          return;
        }
      }
      status.online := healthy;
      prevOnline := healthy;
    }
  }

  class OneTimeInitWatchdog {
    var prevOnline: bool
    var inits: nat
    var started: nat

    constructor ()
      ensures !prevOnline && inits == 0 && started == 0
    {
      prevOnline, inits, started := false, 0, 0;
    }

    method Check(status: Status, succeeds: bool)
      modifies this
      ensures if !status.online || old(prevOnline)
        then prevOnline == old(prevOnline) && inits == old(inits) && started == old(started)
        else prevOnline && inits == old(inits) + 1 && started == old(started) + if succeeds then 1 else 0
    {
      if !status.online || prevOnline {
        return;
      }
      prevOnline := true;
      inits := inits + 1;
      if succeeds {
        started := started + 1;
      }
    }
  }

  class ActivenessWatchdog {
    const timeoutMinutes: int
    var lastActive: int
    var stops: set<nat>

    constructor (timeoutMinutes: int)
      ensures this.timeoutMinutes == timeoutMinutes && lastActive == -1 && stops == {}
    {
      this.timeoutMinutes, lastActive, stops := timeoutMinutes, -1, {};
    }

    method Check(watchID: nat, status: Status, players: Option<nat>)
      modifies this
      ensures lastActive == ActiveNext(old(lastActive), watchID, status.online, players, timeoutMinutes)
      ensures stops == old(stops) +
        if StopsNow(old(lastActive), watchID, status.online, players, timeoutMinutes) then {watchID} else {}
    {
      if timeoutMinutes <= 0 {
        return;
      }
      if !status.online {
        return;
      }
      if lastActive < 0 {
        lastActive := watchID;
      }
      if watchID % 60 != 0 {
        return;
      }
      if players.None? {
        return;
      }
      var active := players.value != 0;
      if active {
        lastActive := watchID;
      } else {
        var minutesSinceLastActive := (watchID - lastActive) / 60;
        if minutesSinceLastActive > timeoutMinutes {
          stops := stops + {watchID};
        }
      }
    }
  }

  class MonitoringMiddleware {
    const liveness: LivenessWatchdog
    const oneTimeInit: OneTimeInitWatchdog
    const activeness: ActivenessWatchdog
    var statuses: seq<StatusEvent>

    constructor (timeoutMinutes: int)
      ensures fresh(liveness) && fresh(oneTimeInit) && fresh(activeness) && statuses == []
      ensures !liveness.prevOnline && !oneTimeInit.prevOnline && oneTimeInit.inits == 0 && oneTimeInit.started == 0
      ensures activeness.timeoutMinutes == timeoutMinutes && activeness.lastActive == -1 && activeness.stops == {}
    {
      liveness := new LivenessWatchdog();
      oneTimeInit := new OneTimeInitWatchdog();
      activeness := new ActivenessWatchdog(timeoutMinutes);
      statuses := [];
    }

    ghost function State(ticks: nat, prevOnline: bool): Monitor
      reads this, liveness, oneTimeInit, activeness
    {
      Monitor(ticks, liveness.prevOnline, oneTimeInit.prevOnline, activeness.lastActive, prevOnline,
        statuses, oneTimeInit.inits, oneTimeInit.started, activeness.stops)
    }

    /** One round of the loop. */
    method RunTick(watchID: nat, prevOnline: bool, input: Input) returns (online: bool)
      modifies this, liveness, oneTimeInit, activeness
      ensures State(watchID + 1, online) == Tick(old(State(watchID, prevOnline)), input, activeness.timeoutMinutes)
    {
      hide LiveNext, ActiveNext, StopsNow;
      var status := new Status();
      liveness.Check(watchID, status, input.healthy);
      oneTimeInit.Check(status, input.initSucceeds);
      activeness.Check(watchID, status, input.players);
      online := prevOnline;
      if online != status.online {
        online := status.online;
        statuses := statuses + [if status.online then Running else Loading];
      }
    }

    /** The tick loop, until the launch ends. */
    method Run(inputs: seq<Input>) returns (watchID: nat, prevOnline: bool)
      requires State(0, false) == INITIAL.(statuses := [])
      modifies this, liveness, oneTimeInit, activeness
      ensures State(watchID, prevOnline) == After(inputs, activeness.timeoutMinutes)
    {
      statuses := [Loading];
      watchID, prevOnline := 0, false;
      while watchID < |inputs|
        invariant watchID <= |inputs|
        invariant State(watchID, prevOnline) == After(inputs[..watchID], activeness.timeoutMinutes)
      {
        hide After, Tick;
        NextTick(inputs, watchID, activeness.timeoutMinutes);
        prevOnline := RunTick(watchID, prevOnline, inputs[watchID]);
        watchID := watchID + 1;
      }
      assert inputs[..|inputs|] == inputs;
    }
  }

  lemma NextTick(inputs: seq<Input>, w: nat, t: int)
    requires w < |inputs|
    ensures After(inputs[..w + 1], t) == Tick(After(inputs[..w], t), inputs[w], t)
  {
    assert inputs[..w + 1][..w] == inputs[..w];
  }
}
