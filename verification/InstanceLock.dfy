/**
 The lock every launch of the game server takes: the key "running" in a shared store. The machine
 takes each store operation of Launch, launchServer and Clean as one step, in any interleaving of
 any number of launches; an operation can fail with or without having taken effect.
 */
module InstanceLock {
  type LaunchId = nat

  /**
   How far an accepted launch has come: preparing its runner, giving up and given up; or handed over
   to its runner, cleaned up after, done.
   */
  datatype Phase = Preparing | GivingUp | GaveUp | HandedOver | Cleaning | Released

  datatype Event = Acquire(launch: LaunchId) | Release(launch: LaunchId)

  /**
   `running` says whether the key is in the store; `history` has every acquisition and every release
   attempted. The runner of a launch in `known` can still authenticate itself; for a launch in
   `again` a further cleanup is under way.
   */
  datatype State = State(
    running: bool, phases: map<LaunchId, Phase>, history: seq<Event>, known: set<LaunchId>, again: set<LaunchId>)

  predicate InPhase(s: State, l: LaunchId, p: Phase) {
    l in s.phases && s.phases[l] == p
  }

  predicate Over(p: Phase) { p.GaveUp? || p.Released? }

  /** Get-and-set found no key: the launch is accepted. */
  predicate Accept(s: State, t: State, l: LaunchId) {
    && !s.running && l !in s.phases
    && t == s.(running := true, phases := s.phases[l := Preparing], history := s.history + [Acquire(l)])
  }

  /** Get-and-set found the key, or failed; if it took effect it has set the key. */
  predicate Refuse(s: State, t: State) {
    t == s || t == s.(running := true)
  }

  /** The runner's key is stored. */
  predicate Register(s: State, t: State, l: LaunchId) {
    InPhase(s, l, Preparing) && t == s.(known := s.known + {l})
  }

  /** The runner could not be configured or registered. */
  predicate GiveUp(s: State, t: State, l: LaunchId) {
    InPhase(s, l, Preparing) && t == s.(phases := s.phases[l := GivingUp])
  }

  predicate HandOver(s: State, t: State, l: LaunchId) {
    InPhase(s, l, Preparing) && l in s.known && t == s.(phases := s.phases[l := HandedOver])
  }

  /** The runner, which must be known, reported its shutdown. */
  predicate BeginClean(s: State, t: State, l: LaunchId) {
    InPhase(s, l, HandedOver) && l in s.known && t == s.(phases := s.phases[l := Cleaning])
  }

  /** A cleanup deletes the runner's keys. */
  predicate Forget(s: State, t: State, l: LaunchId) {
    (InPhase(s, l, Cleaning) || l in s.again) && t == s.(known := s.known - {l})
  }

  /** The key is deleted, or the deletion fails and may leave it. */
  predicate AttemptRelease(s: State, t: State, l: LaunchId) {
    && (InPhase(s, l, GivingUp) || InPhase(s, l, Cleaning))
    && (t.running ==> s.running)
    && t == s.(
      running := t.running,
      phases := s.phases[l := if s.phases[l] == GivingUp then GaveUp else Released],
      history := s.history + [Release(l)])
  }

  /** The shutdown was reported once more, while the first cleanup is under way or after it. */
  predicate CleanAgain(s: State, t: State, l: LaunchId) {
    (InPhase(s, l, Cleaning) || InPhase(s, l, Released)) && l in s.known && t == s.(again := s.again + {l})
  }

  predicate ReleaseAgain(s: State, t: State, l: LaunchId) {
    && l in s.again && (t.running ==> s.running)
    && t == s.(running := t.running, again := s.again - {l}, history := s.history + [Release(l)])
  }

  /** `once` says that each runner's shutdown is handled at most once. */
  predicate StepOf(s: State, t: State, l: LaunchId, once: bool) {
    || Accept(s, t, l) || Refuse(s, t) || Register(s, t, l) || GiveUp(s, t, l) || HandOver(s, t, l)
    || BeginClean(s, t, l) || Forget(s, t, l) || AttemptRelease(s, t, l)
    || (!once && (CleanAgain(s, t, l) || ReleaseAgain(s, t, l)))
  }

  ghost predicate Step(s: State, t: State, once: bool) {
    exists l :: StepOf(s, t, l, once)
  }

  /** Nothing has been launched; the key may have been left behind. */
  predicate Init(s: State) { s == State(s.running, map[], [], {}, {}) }

  ghost predicate IsRun(run: seq<State>, once: bool) {
    && run != [] && Init(run[0])
    && forall i | 0 < i < |run| :: Step(run[i - 1], run[i], once)
  }

  /** Acquisitions and releases take turns, each release by the launch that acquired last. */
  predicate Alternates(history: seq<Event>) {
    && (forall i | 0 <= i < |history| :: history[i].Acquire? <==> i % 2 == 0)
    && (forall i, j | 0 <= i < |history| && j == i + 1 < |history| && history[j].Release? ::
          history[i].launch == history[j].launch)
  }

  /** Some launch has been accepted and not released: the last one. */
  predicate Taken(s: State) { |s.history| % 2 == 1 }

  predicate Inv(s: State) {
    && Alternates(s.history) && s.again == {}
    && (Taken(s) ==> s.running && s.history[|s.history| - 1].launch in s.phases)
    && forall l | l in s.phases :: !Over(s.phases[l]) <==> Taken(s) && l == s.history[|s.history| - 1].launch
  }

  lemma StepKeepsInv(s: State, t: State, l: LaunchId)
    requires Inv(s) && StepOf(s, t, l, true)
    ensures Inv(t)
  {
    if Accept(s, t, l) || AttemptRelease(s, t, l) {
      HistoryGrows(s, t, l);
    } else {
      assert t.history == s.history;
      hide Alternates;
    }
  }

  lemma HistoryGrows(s: State, t: State, l: LaunchId)
    requires Inv(s) && (Accept(s, t, l) || AttemptRelease(s, t, l))
    ensures Inv(t)
  {
    if AttemptRelease(s, t, l) {
      assert !Over(s.phases[l]);
    }
  }

  lemma {:induction false} RunKeepsInv(run: seq<State>)
    requires IsRun(run, true)
    ensures Inv(run[|run| - 1])
  {
    if |run| > 1 {
      var before := run[..|run| - 1];
      RunKeepsInv(before);
      assert Step(run[|run| - 2], run[|run| - 1], true);
      var l :| StepOf(run[|run| - 2], run[|run| - 1], l, true);
      StepKeepsInv(run[|run| - 2], run[|run| - 1], l);
    }
  }

  /** Under every interleaving and every store failure, acquisitions and releases strictly alternate. */
  lemma AcquisitionsAlternate(run: seq<State>)
    requires IsRun(run, true)
    ensures Alternates(run[|run| - 1].history)
  {
    RunKeepsInv(run);
  }

  predicate AllOver(s: State) {
    forall m | m in s.phases :: Over(s.phases[m])
  }

  /** No launch is accepted while an earlier one is unreleased. */
  lemma AcceptedWhenFree(run: seq<State>, t: State, l: LaunchId)
    requires IsRun(run, true) && Accept(run[|run| - 1], t, l)
    ensures AllOver(run[|run| - 1])
  {
    RunKeepsInv(run);
  }

  /** So there is at most one unreleased launch, and the key is in the store as long as there is one. */
  lemma OneLaunchAtATime(run: seq<State>, l: LaunchId, m: LaunchId)
    requires IsRun(run, true)
    requires var s := run[|run| - 1]; l in s.phases && m in s.phases && !Over(s.phases[l]) && !Over(s.phases[m])
    ensures l == m && run[|run| - 1].running
  {
    RunKeepsInv(run);
  }

  /** Each launch releases at most once: no two releases in the history are by the same launch. */
  lemma {:induction false} HistoryNamesLaunchOnce(run: seq<State>)
    requires IsRun(run, true)
    ensures var s := run[|run| - 1];
      && (forall i | 0 <= i < |s.history| :: s.history[i].launch in s.phases)
      && forall i, j | 0 <= i < j < |s.history| :: s.history[i] != s.history[j]
  {
    if |run| > 1 {
      var before := run[..|run| - 1];
      HistoryNamesLaunchOnce(before);
      RunKeepsInv(before);
      var s, t := run[|run| - 2], run[|run| - 1];
      assert before[|before| - 1] == s;
      assert Step(s, t, true);
      var l :| StepOf(s, t, l, true);
      ReleasedIsOver(before, l);
      hide IsRun, Step, Inv;
      if !(Accept(s, t, l) || AttemptRelease(s, t, l)) {
        assert t.history == s.history;
      }
    }
  }

  /** A launch that has released is in its last phase. */
  lemma {:induction false} ReleasedIsOver(run: seq<State>, l: LaunchId)
    requires IsRun(run, true)
    ensures var s := run[|run| - 1]; Release(l) in s.history ==> l in s.phases && Over(s.phases[l])
  {
    if |run| > 1 {
      var before := run[..|run| - 1];
      ReleasedIsOver(before, l);
      RunKeepsInv(before);
      var s, t := run[|run| - 2], run[|run| - 1];
      assert before[|before| - 1] == s;
      assert Step(s, t, true);
      var m :| StepOf(s, t, m, true);
      hide IsRun, Step, Alternates;
    }
  }

  // ---- when a shutdown is handled again ----

  /** The runner's keys are gone and no further cleanup is under way. */
  predicate Forgotten(s: State, l: LaunchId) {
    l in s.phases && !s.phases[l].Preparing? && l !in s.known && l !in s.again
  }

  /**
   A further cleanup needs the runner's key. A cleanup that has deleted it, with no further one under
   way yet, is therefore the last one: only cleanups that stop before, or fail to delete it, can be repeated.
   */
  lemma {:induction false} CompleteCleanupIsLast(run: seq<State>, once: bool, i: nat, l: LaunchId)
    requires IsRun(run, once) && i < |run| && Forgotten(run[i], l)
    ensures Forgotten(run[|run| - 1], l)
  {
    if i < |run| - 1 {
      var before := run[..|run| - 1];
      CompleteCleanupIsLast(before, once, i, l);
      var s, t := run[|run| - 2], run[|run| - 1];
      assert before[|before| - 1] == s;
      assert Step(s, t, once);
      var m :| StepOf(s, t, m, once);
      hide IsRun, Step;
    }
  }

  /** The launch has been accepted, and neither given up nor released. */
  predicate Holds(s: State, l: LaunchId) {
    l in s.phases && !Over(s.phases[l])
  }

  ghost predicate TwoHold(s: State) {
    exists l, m :: l != m && Holds(s, l) && Holds(s, m)
  }

  /** A further cleanup releases the lock while launch `m` holds it. */
  ghost predicate TakesFrom(s: State, t: State, m: LaunchId) {
    Holds(s, m) && s.running && !t.running && exists l :: ReleaseAgain(s, t, l)
  }

  ghost predicate Accepts(s: State, t: State) {
    exists l :: Accept(s, t, l)
  }

  /** At step `i` a further cleanup takes the lock from launch `m`; at step `j`, with `m` still going on, a launch is accepted. */
  ghost predicate AcceptedBeside(run: seq<State>, i: nat, j: nat, m: LaunchId) {
    && 0 < i < j < |run|
    && TakesFrom(run[i - 1], run[i], m)
    && (forall k | i <= k < j :: Holds(run[k], m))
    && Accepts(run[j - 1], run[j])
  }

  /**
   Over every run, further cleanups included: two launches hold the lock in some state exactly if a
   further cleanup has taken it from a launch beside which one was then accepted.
   */
  lemma TwoHoldExactly(run: seq<State>)
    requires IsRun(run, false)
    ensures (exists s | s in run :: TwoHold(s)) <==> exists i, j, m :: AcceptedBeside(run, i, j, m)
  {
    if i: nat, j: nat, m: LaunchId :| AcceptedBeside(run, i, j, m) {
      var l :| Accept(run[j - 1], run[j], l);
      assert Holds(run[j], l) && Holds(run[j], m);
      assert run[j] in run;
    }
    if s :| s in run && TwoHold(s) {
      var j :| 0 <= j < |run| && run[j] == s;
      var i, n, m := FirstBeside(run, j);
    }
  }

  /** The first time two launches hold the lock, one of them has just been accepted. */
  lemma {:induction false} FirstBeside(run: seq<State>, j: nat) returns (i: nat, n: nat, m: LaunchId)
    requires IsRun(run, false) && j < |run| && TwoHold(run[j])
    ensures AcceptedBeside(run, i, n, m)
    decreases j
  {
    if k :| 0 <= k < j && TwoHold(run[k]) {
      i, n, m := FirstBeside(run, k);
    } else {
      assert j > 0 && Step(run[j - 1], run[j], false);
      var l :| StepOf(run[j - 1], run[j], l, false);
      m := OtherHolder(run[j - 1], run[j], l);
      i := TakenBefore(run, j - 1, m);
      n := j;
    }
  }

  /** Only an acceptance makes another launch hold the lock. */
  lemma OtherHolder(s: State, t: State, l: LaunchId) returns (m: LaunchId)
    requires StepOf(s, t, l, false) && !TwoHold(s) && TwoHold(t)
    ensures Accept(s, t, l) && Holds(s, m)
  {
    if !Accept(s, t, l) {
      assert forall k | Holds(t, k) :: Holds(s, k);
    }
    m :| m != l && Holds(t, m);
  }

  /** If launch `m` goes on without the key, a further cleanup has taken it away. */
  lemma {:induction false} TakenBefore(run: seq<State>, j: nat, m: LaunchId) returns (i: nat)
    requires IsRun(run, false) && j < |run| && Holds(run[j], m) && !run[j].running
    requires forall k | 0 <= k <= j :: !TwoHold(run[k])
    ensures 0 < i <= j && TakesFrom(run[i - 1], run[i], m)
    ensures forall k | i <= k <= j :: Holds(run[k], m)
    decreases j
  {
    assert j > 0 && Step(run[j - 1], run[j], false);
    var l :| StepOf(run[j - 1], run[j], l, false);
    HeldBefore(run[j - 1], run[j], l, m);
    if run[j - 1].running {
      i := j;
    } else {
      i := TakenBefore(run, j - 1, m);
    }
  }

  lemma HeldBefore(s: State, t: State, l: LaunchId, m: LaunchId)
    requires StepOf(s, t, l, false) && !TwoHold(s) && Holds(t, m) && !t.running
    ensures Holds(s, m) && (s.running ==> TakesFrom(s, t, m))
  {
    assert Holds(s, m);
    assert AttemptRelease(s, t, l) ==> l != m && Holds(s, l);
  }

  /**
   A second cleanup deletes the key another launch has set: here the first cleanup of launch 0 ends
   without deleting its runner's keys, and its shutdown is reported once more while launch 1 is being
   prepared, so that launch 2 is accepted beside it.
   */
  lemma CleaningTwiceBreaksLock() returns (run: seq<State>)
    ensures IsRun(run, false)
    ensures var s := run[|run| - 1]; InPhase(s, 1, Preparing) && InPhase(s, 2, Preparing)
  {
    var s0 := State(false, map[], [], {}, {});
    var s4 := State(true, map[0 := Cleaning], [Acquire(0)], {0}, {});
    run := FirstCleanup(s0, s4);
    var s5 := s4.(running := false, phases := map[0 := Released], history := [Acquire(0), Release(0)]);
    var s6 := s5.(running := true, phases := map[0 := Released, 1 := Preparing], history := s5.history + [Acquire(1)]);
    var s7 := s6.(again := {0});
    var s8 := s7.(running := false, again := {}, history := s6.history + [Release(0)]);
    var s9 := s8.(running := true, phases := s6.phases[2 := Preparing], history := s8.history + [Acquire(2)]);
    assert s5.history == s4.history + [Release(0)];
    assert AttemptRelease(s4, s5, 0) && Accept(s5, s6, 1) && CleanAgain(s6, s7, 0) && ReleaseAgain(s7, s8, 0) && Accept(s8, s9, 2);
    run := RunOn(run, s5, 0);
    run := RunOn(run, s6, 1);
    run := RunOn(run, s7, 0);
    run := RunOn(run, s8, 0);
    run := RunOn(run, s9, 2);
  }

  /** Launch 0 is accepted, prepared, handed over, and reports its shutdown. */
  lemma FirstCleanup(s0: State, s4: State) returns (run: seq<State>)
    requires s0 == State(false, map[], [], {}, {}) && s4 == State(true, map[0 := Cleaning], [Acquire(0)], {0}, {})
    ensures IsRun(run, false) && run[|run| - 1] == s4
  {
    var s1 := State(true, map[0 := Preparing], [Acquire(0)], {}, {});
    var s2 := s1.(known := {0});
    var s3 := s2.(phases := map[0 := HandedOver]);
    assert Accept(s0, s1, 0) && Register(s1, s2, 0) && HandOver(s2, s3, 0) && BeginClean(s3, s4, 0);
    run := RunOn([s0], s1, 0);
    run := RunOn(run, s2, 0);
    run := RunOn(run, s3, 0);
    run := RunOn(run, s4, 0);
  }

  lemma RunOn(run: seq<State>, t: State, l: LaunchId) returns (more: seq<State>)
    requires IsRun(run, false) && StepOf(run[|run| - 1], t, l, false)
    ensures IsRun(more, false) && more[|more| - 1] == t
  {
    more := run + [t];
    assert Step(run[|run| - 1], t, false);
    hide Step, StepOf;
    forall i | 0 < i < |more|
      ensures Step(more[i - 1], more[i], false)
    {
      assert more[i - 1] == run[i - 1];
      if i < |run| {
        assert more[i] == run[i];
      }
    }
  }
}
