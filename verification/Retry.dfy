/** Retrying with doubling intervals and jitter. Durations are in nanoseconds. */
module Retry {
  const MILLISECOND := 1_000_000
  const SECOND := 1_000_000_000
  const MAX_INTERVAL := 60 * SECOND

  /** The interval before the jitter of the n-th wait, counted from 0. */
  function Interval(n: nat): nat {
    if n == 0 then SECOND
    else
      var doubled := 2 * Interval(n - 1);
      if doubled > MAX_INTERVAL then MAX_INTERVAL else doubled
  }

  /** The waiting time of `n` waits without jitter. */
  function Waited(n: nat): nat {
    if n == 0 then 0 else Waited(n - 1) + Interval(n - 1)
  }

  lemma {:induction false} IntervalsLevelOff(n: nat)
    ensures 1_000_000_000 <= Interval(n) <= 60_000_000_000
    ensures n >= 6 ==> Interval(n) == 60_000_000_000
  {
    if n > 6 {
      IntervalsLevelOff(n - 1);
    } else {
      assert Interval(1) == 2 * SECOND && Interval(2) == 4 * SECOND && Interval(3) == 8 * SECOND;
      assert Interval(4) == 16 * SECOND && Interval(5) == 32 * SECOND && Interval(6) == MAX_INTERVAL;
    }
  }

  /** After the first 63 seconds each wait takes a minute. */
  lemma {:induction false} WaitedInMinutes(n: nat)
    requires n >= 6
    ensures Waited(n) == 63_000_000_000 + (n - 6) * 60_000_000_000
  {
    IntervalsLevelOff(n);
    if n > 6 {
      IntervalsLevelOff(n - 1);
      WaitedInMinutes(n - 1);
    } else {
      assert Waited(1) == SECOND && Waited(2) == 3 * SECOND && Waited(3) == 7 * SECOND;
      assert Waited(4) == 15 * SECOND && Waited(5) == 31 * SECOND && Waited(6) == 63 * SECOND;
    }
  }

  lemma {:induction false} WaitedGrows(m: nat, n: nat)
    requires m <= n
    ensures Waited(m) <= Waited(n)
    decreases n
  {
    if m < n {
      WaitedGrows(m, n - 1);
    }
  }

  /** The waiting time accounted for `n` waits: each interval with its jitter. */
  function Elapsed(jitter: nat -> nat, n: nat): nat {
    if n == 0 then 0 else Elapsed(jitter, n - 1) + Interval(n - 1) + jitter(n - 1) * MILLISECOND
  }

  /** Jitter only ever lengthens the wait, by less than three seconds each time. */
  lemma {:induction false} ElapsedBounds(jitter: nat -> nat, n: nat)
    requires forall i :: jitter(i) < 3000
    ensures Waited(n) <= Elapsed(jitter, n) <= Waited(n) + n * 3_000_000_000
  {
    if n > 0 {
      ElapsedBounds(jitter, n - 1);
    }
  }

  class R {
    var curInterval: nat
    const maxInterval: nat
    const failAfter: int
    var elapsedTime: nat

    constructor (failAfter: int)
      ensures curInterval == 1_000_000_000 && maxInterval == MAX_INTERVAL && this.failAfter == failAfter && elapsedTime == 0
    {
      curInterval, maxInterval, this.failAfter, elapsedTime := SECOND, MAX_INTERVAL, failAfter, 0;
    }

    /** `random` is what the random source gives, below 3000. */
    method NextInterval(random: nat) returns (interval: nat)
      requires random < 3000 && maxInterval == MAX_INTERVAL
      modifies this
      ensures interval == old(curInterval) + random * 1_000_000
      ensures elapsedTime == old(elapsedTime) + interval
      ensures curInterval == if 2 * old(curInterval) > 60_000_000_000 then 60_000_000_000 else 2 * old(curInterval)
    {
      interval := curInterval + random * MILLISECOND;
      elapsedTime := elapsedTime + interval;
      curInterval := curInterval * 2;
      if curInterval > maxInterval {
        curInterval := maxInterval;
      }
    }

    predicate Finished()
      reads this
    {
      failAfter < elapsedTime
    }
  }

  /** The first `n` attempts all failed, each with its accounted waiting time within `failAfter`. */
  predicate KeptTrying(succeeds: nat -> bool, jitter: nat -> nat, failAfter: int, n: nat) {
    forall i: nat | i < n :: !succeeds(i) && Elapsed(jitter, i) <= failAfter
  }

  /**
   `Retry`, for a function whose attempts succeed or fail as `succeeds` says and any jitter: it
   ends with the first success, or it gives up once the accounted waiting time is above `failAfter`.
   */
  method RetryUntil(succeeds: nat -> bool, jitter: nat -> nat, failAfter: int) returns (ok: bool, attempts: nat, elapsed: nat)
    requires forall n :: jitter(n) < 3000
    ensures attempts > 0 && elapsed == Elapsed(jitter, attempts - 1)
    ensures KeptTrying(succeeds, jitter, failAfter, attempts - 1)
    ensures if ok then succeeds(attempts - 1) else !succeeds(attempts - 1) && failAfter < elapsed
  {
    hide Interval, Elapsed;
    var rr := new R(failAfter);
    attempts := 0;
    NoWaitYet(jitter);
    while true
      invariant fresh(rr) && rr.maxInterval == MAX_INTERVAL && rr.failAfter == failAfter
      invariant rr.curInterval == Interval(attempts)
      invariant rr.elapsedTime == Elapsed(jitter, attempts)
      invariant KeptTrying(succeeds, jitter, failAfter, attempts)
      decreases failAfter - rr.elapsedTime
    {
      hide Interval, Elapsed;
      if succeeds(attempts) {
        return true, attempts + 1, rr.elapsedTime;
      }
      if rr.Finished() {
        return false, attempts + 1, rr.elapsedTime;
      }
      IntervalsLevelOff(attempts);
      OneMoreWait(jitter, attempts);
      var _ := rr.NextInterval(jitter(attempts));
      attempts := attempts + 1;
    }
  }

  lemma NoWaitYet(jitter: nat -> nat)
    ensures Interval(0) == SECOND && Elapsed(jitter, 0) == 0
  {
  }

  lemma OneMoreWait(jitter: nat -> nat, n: nat)
    ensures Elapsed(jitter, n + 1) == Elapsed(jitter, n) + Interval(n) + jitter(n) * MILLISECOND
    ensures Interval(n + 1) == if 2 * Interval(n) > MAX_INTERVAL then MAX_INTERVAL else 2 * Interval(n)
  {
  }

  /** Giving up overshoots the limit by less than one longest wait and its jitter. */
  lemma GivesUpInTime(jitter: nat -> nat, failAfter: int, attempts: nat)
    requires forall n :: jitter(n) < 3000
    requires failAfter >= 0 && attempts > 0
    requires forall n: nat | n < attempts - 1 :: Elapsed(jitter, n) <= failAfter
    ensures Elapsed(jitter, attempts - 1) < failAfter + 63_000_000_000
  {
    if attempts > 1 {
      OneMoreWait(jitter, attempts - 2);
      IntervalsLevelOff(attempts - 2);
    }
  }

  /** Whatever the jitter, at most eight attempts are made and one for each further minute. */
  lemma AttemptsAreFew(jitter: nat -> nat, failAfter: int, attempts: nat)
    requires forall n :: jitter(n) < 3000
    requires failAfter >= 63_000_000_000 && attempts > 0
    requires forall n: nat | n < attempts - 1 :: Elapsed(jitter, n) <= failAfter
    ensures attempts <= 8 + (failAfter - 63_000_000_000) / 60_000_000_000
  {
    if attempts > 8 {
      hide Interval, Elapsed, Waited;
      ElapsedBounds(jitter, attempts - 2);
      WaitedInMinutes(attempts - 2);
      assert (attempts - 8) * MAX_INTERVAL <= failAfter - 63 * SECOND;
    }
  }

  /** The bound is met: without jitter, and failing throughout, exactly that many attempts are made. */
  lemma AttemptsBoundIsMet(failAfter: int, attempts: nat)
    requires failAfter >= 63_000_000_000 && attempts > 0
    requires failAfter < Elapsed((i: nat) => 0, attempts - 1)
    ensures attempts >= 8 + (failAfter - 63_000_000_000) / 60_000_000_000
  {
    NoJitter(attempts - 1);
    WaitedInMinutes(6);
    hide Interval, Elapsed, Waited;
    if attempts < 7 {
      WaitedGrows(attempts - 1, 6);
    } else {
      WaitedInMinutes(attempts - 1);
    }
  }

  lemma {:induction false} NoJitter(n: nat)
    ensures Elapsed((i: nat) => 0, n) == Waited(n)
  {
    if n > 0 {
      NoJitter(n - 1);
    }
  }
}
