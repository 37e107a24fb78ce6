/** What holds of the watchdogs over whole runs. */
module WatchdogRuns {
  import opened Options
  import opened Watchdogs

  /** The server counts as online at tick `w`. */
  predicate OnlineAt(inputs: seq<Input>, t: int, w: nat) {
    w < |inputs| && After(inputs[..w + 1], t).live
  }

  lemma LastTick(inputs: seq<Input>, t: int)
    requires inputs != []
    ensures After(inputs, t) == Tick(After(inputs[..|inputs| - 1], t), inputs[|inputs| - 1], t)
    ensures OnlineAt(inputs, t, |inputs| - 1) == After(inputs, t).live
  {
    assert inputs[..|inputs|] == inputs;
  }

  lemma SamePast(inputs: seq<Input>, t: int, n: nat, w: nat)
    requires w < n <= |inputs|
    ensures OnlineAt(inputs[..n], t, w) <==> OnlineAt(inputs, t, w)
    ensures inputs[..n][w] == inputs[w]
  {
    assert inputs[..n][..w + 1] == inputs[..w + 1];
  }

  // ---- status events ----

  /** Status events alternate, Loading first; the last one says whether the server is online. */
  lemma {:induction false} StatusesAlternate(inputs: seq<Input>, t: int)
    ensures var m := After(inputs, t);
      && |m.statuses| > 0 && m.prevOnline == m.live
      && (m.statuses[|m.statuses| - 1] == if m.live then Running else Loading)
      && forall i | 0 <= i < |m.statuses| :: m.statuses[i] == if i % 2 == 0 then Loading else Running
  {
    hide LiveNext, ActiveNext, StopsNow;
    if inputs != [] {
      StatusesAlternate(inputs[..|inputs| - 1], t);
    }
  }

  /** The one-time initialisation is attempted at most once, at the first online tick, and reported only if it went through. */
  lemma {:induction false} InitialisedAtMostOnce(inputs: seq<Input>, t: int)
    ensures var m := After(inputs, t);
      && m.started <= m.inits <= 1
      && (m.inits == 1 <==> m.initialised)
      && (m.initialised <==> exists w: nat :: OnlineAt(inputs, t, w))
  {
    hide LiveNext, ActiveNext, StopsNow;
    if inputs != [] {
      var past := inputs[..|inputs| - 1];
      InitialisedAtMostOnce(past, t);
      LastTick(inputs, t);
      forall w: nat | w < |past|
        ensures OnlineAt(past, t, w) <==> OnlineAt(inputs, t, w)
      {
        SamePast(inputs, t, |past|, w);
      }
      if After(past, t).initialised {
        var w: nat :| OnlineAt(past, t, w);
        assert OnlineAt(inputs, t, w);
      }
    }
  }

  /** At tick `w` the server is online for the first time, and the initialisation goes through. */
  predicate SucceedsAt(inputs: seq<Input>, t: int, w: nat) {
    FirstOnline(inputs, t, w) && inputs[w].initSucceeds
  }

  /** The start is reported exactly if the initialisation goes through at the first online tick; it is not tried again. */
  lemma {:induction false} ReportedExactly(inputs: seq<Input>, t: int)
    ensures After(inputs, t).started > 0 <==> exists w: nat :: SucceedsAt(inputs, t, w)
  {
    hide LiveNext, ActiveNext, StopsNow, OnlineAt;
    OnlineIsPast(inputs, t);
    if inputs != [] {
      var n := |inputs| - 1;
      var past := inputs[..n];
      ReportedExactly(past, t);
      InitialisedAtMostOnce(past, t);
      LastTick(inputs, t);
      OnlineIsPast(past, t);
      forall w: nat | w < n
        ensures SucceedsAt(past, t, w) <==> SucceedsAt(inputs, t, w)
        ensures OnlineAt(past, t, w) <==> OnlineAt(inputs, t, w)
      {
        SameFirst(inputs, t, n, w);
      }
      assert FirstOnline(inputs, t, n) <==> After(inputs, t).live && !After(past, t).initialised;
      if w: nat :| SucceedsAt(past, t, w) {
        assert SucceedsAt(inputs, t, w);
      }
      if SucceedsAt(inputs, t, n) {
        assert After(inputs, t).started > 0;
      }
    }
  }

  lemma OnlineIsPast(inputs: seq<Input>, t: int)
    ensures forall w: nat | OnlineAt(inputs, t, w) :: w < |inputs|
  {
  }

  lemma SameFirst(inputs: seq<Input>, t: int, n: nat, w: nat)
    requires w < n <= |inputs|
    ensures FirstOnline(inputs[..n], t, w) <==> FirstOnline(inputs, t, w)
    ensures OnlineAt(inputs[..n], t, w) <==> OnlineAt(inputs, t, w)
  {
    forall v: nat | v <= w
      ensures OnlineAt(inputs[..n], t, v) <==> OnlineAt(inputs, t, v)
    {
      SamePast(inputs, t, n, v);
    }
  }

  // ---- liveness ----

  /** A server that can be dialled for three ticks running counts as online at the third, and as long as it can be dialled. */
  lemma {:induction false} ComesUpInThreeTicks(inputs: seq<Input>, t: int, from: nat)
    requires |inputs| >= from + 3 && forall w | from <= w < |inputs| :: inputs[w].healthy
    ensures After(inputs, t).live
  {
    var n := |inputs|;
    var checked := n - 1 - (n - 1) % 3;
    LiveSince(inputs, t, checked);
  }

  /** Once a check at a multiple of three has succeeded, the server stays online while it can be dialled. */
  lemma {:induction false} LiveSince(inputs: seq<Input>, t: int, checked: nat)
    requires checked < |inputs| && checked % 3 == 0
    requires forall w | checked <= w < |inputs| :: inputs[w].healthy
    ensures After(inputs, t).live
  {
    var past := inputs[..|inputs| - 1];
    hide ActiveNext, StopsNow;
    if |inputs| > checked + 1 {
      LiveSince(past, t, checked);
    }
    LastTick(inputs, t);
  }

  /** A server that cannot be dialled for ten ticks running counts as offline at the tenth, and as long as it cannot. */
  lemma {:induction false} GoesDownInTenTicks(inputs: seq<Input>, t: int, from: nat)
    requires |inputs| >= from + 10 && forall w | from <= w < |inputs| :: !inputs[w].healthy
    ensures !After(inputs, t).live
  {
    var n := |inputs|;
    var checked := n - 1 - (n - 1) % 10;
    NotLiveSince(inputs, t, checked);
  }

  /** Once a check at a multiple of ten has failed, the server stays offline while it cannot be dialled. */
  lemma {:induction false} NotLiveSince(inputs: seq<Input>, t: int, checked: nat)
    requires checked < |inputs| && checked % 10 == 0
    requires forall w | checked <= w < |inputs| :: !inputs[w].healthy
    ensures !After(inputs, t).live
  {
    var past := inputs[..|inputs| - 1];
    hide ActiveNext, StopsNow;
    if |inputs| > checked + 1 {
      NotLiveSince(past, t, checked);
    }
    LastTick(inputs, t);
  }

  // ---- when the server is dialled ----

  /** The server is dialled every tenth tick while it counts as online, and else every third. */
  predicate DialledAt(inputs: seq<Input>, t: int, w: nat) {
    w < |inputs| && if w > 0 && OnlineAt(inputs, t, w - 1) then w % 10 == 0 else w % 3 == 0
  }

  /** Whether the server counts as online is what the last dial found; between dials nothing is asked. */
  lemma {:induction false} LastDialDecides(inputs: seq<Input>, t: int) returns (w: nat)
    requires inputs != []
    ensures w < |inputs| && DialledAt(inputs, t, w) && forall v: nat | w < v < |inputs| :: !DialledAt(inputs, t, v)
    ensures After(inputs, t).live == inputs[w].healthy
  {
    hide After, OnlineAt, DialledAt;
    var n := |inputs| - 1;
    DialAtLast(inputs, t);
    if DialledAt(inputs, t, n) {
      w := n;
    } else {
      w := LastDialDecides(inputs[..n], t);
      forall v: nat | v < n
        ensures DialledAt(inputs[..n], t, v) <==> DialledAt(inputs, t, v)
      {
        SameDial(inputs, t, n, v);
      }
    }
  }

  lemma DialAtLast(inputs: seq<Input>, t: int)
    requires inputs != []
    ensures var n, live := |inputs| - 1, After(inputs, t).live;
      if DialledAt(inputs, t, n) then live == inputs[n].healthy else n > 0 && live == After(inputs[..n], t).live
  {
    var n := |inputs| - 1;
    LastTick(inputs, t);
    if n > 0 {
      LastTick(inputs[..n], t);
      SamePast(inputs, t, n, n - 1);
    }
    hide OnlineAt, ActiveNext, StopsNow;
  }

  lemma SameDial(inputs: seq<Input>, t: int, n: nat, v: nat)
    requires v < n <= |inputs|
    ensures DialledAt(inputs[..n], t, v) <==> DialledAt(inputs, t, v)
  {
    if v > 0 {
      SamePast(inputs, t, n, v - 1);
    }
    hide OnlineAt;
  }

  // ---- stopping an idle server ----

  /** Players were seen at tick `w`. */
  predicate SeenAt(inputs: seq<Input>, t: int, w: nat) {
    OnlineAt(inputs, t, w) && w % 60 == 0 && inputs[w].players.Some? && inputs[w].players.value != 0
  }

  predicate FirstOnline(inputs: seq<Input>, t: int, w: nat) {
    OnlineAt(inputs, t, w) && forall v: nat | v < w :: !OnlineAt(inputs, t, v)
  }

  predicate CountsFrom(inputs: seq<Input>, t: int, w: nat) {
    SeenAt(inputs, t, w) || FirstOnline(inputs, t, w)
  }

  /** `a` is the later of the first online tick and the last tick with players seen, up to now. */
  predicate IsLastActive(inputs: seq<Input>, t: int, a: nat) {
    CountsFrom(inputs, t, a) && forall w: nat | a < w < |inputs| :: !CountsFrom(inputs, t, w)
  }

  lemma SameCounts(inputs: seq<Input>, t: int, n: nat, w: nat)
    requires w < n <= |inputs|
    ensures CountsFrom(inputs[..n], t, w) <==> CountsFrom(inputs, t, w)
    ensures OnlineAt(inputs[..n], t, w) <==> OnlineAt(inputs, t, w)
  {
    forall v: nat | v <= w
      ensures OnlineAt(inputs[..n], t, v) <==> OnlineAt(inputs, t, v)
    {
      SamePast(inputs, t, n, v);
    }
    SamePast(inputs, t, n, w);
  }

  /** The last tick moves the remembered tick to itself exactly if activity counts from it. */
  lemma LastTickCounts(inputs: seq<Input>, t: int)
    requires t > 0 && inputs != []
    requires After(inputs[..|inputs| - 1], t).lastActive < 0 <==> forall v: nat | v < |inputs| - 1 :: !OnlineAt(inputs, t, v)
    ensures var n := |inputs| - 1;
      After(inputs, t).lastActive == if CountsFrom(inputs, t, n) then n else After(inputs[..n], t).lastActive
  {
    LastTick(inputs, t);
    hide After, LiveNext, StopsNow;
  }

  /** What the activeness watchdog remembers is just that tick. */
  lemma {:induction false} LastActiveIsTracked(inputs: seq<Input>, t: int)
    requires t > 0
    ensures var a := After(inputs, t).lastActive;
      if a < 0 then a == -1 && forall w: nat :: !OnlineAt(inputs, t, w) else IsLastActive(inputs, t, a)
  {
    if inputs != [] {
      LastActiveIsTracked(inputs[..|inputs| - 1], t);
      TrackedOneTickOn(inputs, t, After(inputs[..|inputs| - 1], t).lastActive);
    }
  }

  lemma TrackedOneTickOn(inputs: seq<Input>, t: int, a: int)
    requires t > 0 && inputs != [] && a == After(inputs[..|inputs| - 1], t).lastActive
    requires var past := inputs[..|inputs| - 1];
      if a < 0 then a == -1 && forall w: nat :: !OnlineAt(past, t, w) else IsLastActive(past, t, a)
    ensures var b := After(inputs, t).lastActive;
      if b < 0 then b == -1 && forall w: nat :: !OnlineAt(inputs, t, w) else IsLastActive(inputs, t, b)
  {
    var n := |inputs| - 1;
    forall w: nat
      ensures CountsFrom(inputs, t, w) ==> w <= n
      ensures OnlineAt(inputs, t, w) ==> w <= n
      ensures w < n ==> (CountsFrom(inputs[..n], t, w) <==> CountsFrom(inputs, t, w))
      ensures w < n ==> (OnlineAt(inputs[..n], t, w) <==> OnlineAt(inputs, t, w))
      ensures w >= n ==> !CountsFrom(inputs[..n], t, w) && !OnlineAt(inputs[..n], t, w)
    {
      hide After;
      if w < n {
        SameCounts(inputs, t, n, w);
      }
    }
    hide After, Tick, OnlineAt;
    if a >= 0 {
      SomeoneOnline(inputs[..n], t, a);
      var v: nat :| OnlineAt(inputs[..n], t, v);
      assert OnlineAt(inputs, t, v);
    }
    LastTickCounts(inputs, t);
    if CountsFrom(inputs, t, n) {
      hide CountsFrom;
      assert IsLastActive(inputs, t, n);
    } else if a >= 0 {
      hide CountsFrom;
      assert IsLastActive(inputs, t, a);
    }
  }

  lemma SomeoneOnline(inputs: seq<Input>, t: int, a: nat)
    requires IsLastActive(inputs, t, a)
    ensures exists v: nat :: OnlineAt(inputs, t, v)
  {
    assert OnlineAt(inputs, t, a);
  }

  lemma OneLastActive(inputs: seq<Input>, t: int, a: nat, b: nat)
    requires IsLastActive(inputs, t, a) && IsLastActive(inputs, t, b)
    ensures a == b
  {
  }

  /** The player list is asked for at tick `w`, succeeds and is empty. */
  predicate EmptyAt(inputs: seq<Input>, t: int, w: nat) {
    OnlineAt(inputs, t, w) && w % 60 == 0 && inputs[w].players == Some(0)
  }

  /** At tick `w`, the last activity was at `a`. */
  predicate ActiveUntil(inputs: seq<Input>, t: int, a: nat, w: nat)
    requires w < |inputs|
  {
    IsLastActive(inputs[..w + 1], t, a)
  }

  lemma ElapsedMinutes(ticks: int, t: int)
    ensures ticks / 60 > t <==> ticks >= 60 * (t + 1)
  {
  }

  lemma StopAtLastTick(inputs: seq<Input>, t: int)
    requires t > 0 && inputs != []
    ensures var w, a := |inputs| - 1, After(inputs, t).lastActive;
      w in After(inputs, t).stops <==> EmptyAt(inputs, t, w) && w - a >= 60 * (t + 1)
  {
    var w := |inputs| - 1;
    LastTick(inputs, t);
    StopsInThePast(inputs[..w], t);
    ElapsedMinutes(w - After(inputs, t).lastActive, t);
    hide After, LiveNext;
  }

  /** The stop command is issued at tick `w` exactly if the list is empty then and nobody has been active for more than the timeout. */
  lemma {:induction false} StopsExactlyWhenIdle(inputs: seq<Input>, t: int, w: nat)
    requires t > 0 && w < |inputs|
    ensures w in After(inputs, t).stops <==>
      EmptyAt(inputs, t, w) && exists a: nat :: ActiveUntil(inputs, t, a, w) && w - a >= 60 * (t + 1)
  {
    if w < |inputs| - 1 {
      var past := inputs[..|inputs| - 1];
      StopsExactlyWhenIdle(past, t, w);
      LaterStops(inputs, t, w);
      SamePast(inputs, t, |past|, w);
      hide After, OnlineAt, IsLastActive;
      assert past[..w + 1] == inputs[..w + 1];
      assert forall a: nat :: ActiveUntil(past, t, a, w) <==> ActiveUntil(inputs, t, a, w);
    } else {
      assert inputs[..w + 1] == inputs;
      LastActiveIsTracked(inputs, t);
      StopAtLastTick(inputs, t);
      hide After, OnlineAt, IsLastActive;
      var a := After(inputs, t).lastActive;
      forall b: nat | ActiveUntil(inputs, t, b, w) && a >= 0
        ensures b == a
      {
        OneLastActive(inputs, t, a, b);
      }
      if a >= 0 {
        assert ActiveUntil(inputs, t, a, w);
      } else {
        NeverOnline(inputs, t, w);
      }
    }
  }

  lemma NeverOnline(inputs: seq<Input>, t: int, w: nat)
    requires forall v: nat :: !OnlineAt(inputs, t, v)
    ensures !EmptyAt(inputs, t, w)
  {
  }

  lemma LaterStops(inputs: seq<Input>, t: int, w: nat)
    requires w < |inputs| - 1
    ensures w in After(inputs, t).stops <==> w in After(inputs[..|inputs| - 1], t).stops
  {
    LastTick(inputs, t);
    hide After, LiveNext, StopsNow;
  }

  lemma {:induction false} StopsInThePast(inputs: seq<Input>, t: int)
    ensures forall w | w in After(inputs, t).stops :: w < |inputs|
  {
    if inputs != [] {
      StopsInThePast(inputs[..|inputs| - 1], t);
    }
  }

  /** A server that stays online and empty after `a` is stopped before `a + 60 * (t + 2)`. */
  lemma IdleServerIsStopped(inputs: seq<Input>, t: int, a: nat) returns (w: nat)
    requires t > 0 && |inputs| >= a + 60 * (t + 2) && IsLastActive(inputs[..a + 1], t, a)
    requires forall v: nat | a < v < |inputs| :: OnlineAt(inputs, t, v) && inputs[v].players == Some(0)
    ensures a + 60 * (t + 1) <= w < a + 60 * (t + 2) && w in After(inputs, t).stops
  {
    w := NextMultiple(a + 60 * (t + 1));
    StillIdle(inputs, t, a, w);
    hide After, OnlineAt, IsLastActive;
    StopsExactlyWhenIdle(inputs, t, w);
    assert OnlineAt(inputs, t, w);
  }

  lemma StillIdle(inputs: seq<Input>, t: int, a: nat, w: nat)
    requires a < w < |inputs| && IsLastActive(inputs[..a + 1], t, a)
    requires forall v: nat | a < v < |inputs| :: OnlineAt(inputs, t, v) && inputs[v].players == Some(0)
    ensures ActiveUntil(inputs, t, a, w)
  {
    hide After, OnlineAt, CountsFrom;
    var now := inputs[..w + 1];
    CountsInPart(inputs, t, a + 1, a);
    CountsInPart(inputs, t, w + 1, a);
    forall v: nat | a < v < |now|
      ensures !CountsFrom(now, t, v)
    {
      DoesNotCount(inputs, t, a, v);
      SameCounts(inputs, t, w + 1, v);
    }
  }

  lemma CountsInPart(inputs: seq<Input>, t: int, n: nat, w: nat)
    requires w < n <= |inputs|
    ensures CountsFrom(inputs[..n], t, w) <==> CountsFrom(inputs, t, w)
    ensures CountsFrom(inputs, t, w) ==> OnlineAt(inputs, t, w)
  {
    SameCounts(inputs, t, n, w);
    hide After, OnlineAt;
  }

  lemma DoesNotCount(inputs: seq<Input>, t: int, a: nat, v: nat)
    requires OnlineAt(inputs, t, a) && a < v < |inputs| && inputs[v].players == Some(0)
    ensures !CountsFrom(inputs, t, v)
  {
    hide After;
  }

  lemma NextMultiple(due: nat) returns (w: nat)
    ensures due <= w < due + 60 && w % 60 == 0
  {
    w := (due + 59) / 60 * 60;
  }

  /** Without a timeout nothing is ever stopped. */
  lemma {:induction false} NoTimeoutNoStop(inputs: seq<Input>, t: int)
    requires t <= 0
    ensures After(inputs, t).stops == {}
  {
    if inputs != [] {
      NoTimeoutNoStop(inputs[..|inputs| - 1], t);
    }
  }
}
