/**
 * RateLimiter: `checkLoginRateLimit` as a pure step on the `loginAttempts`
 * map, and what a run of login attempts does to one identifier.
 */
module RateLimit {

  const MAX_LOGIN_ATTEMPTS := 3
  /** `15 * 60 * 1000`: a quiet gap longer than this starts a new count. */
  const RESET_WINDOW_MS := 900000
  /** `30 * 60 * 1000`: the advertised lock time. */
  const LOCK_TIME_MS := 1800000
  /** `Math.ceil(lockTime / 1000)`; the division is exact. */
  const LOCK_RETRY_AFTER := LOCK_TIME_MS / 1000
  const LOCK_MESSAGE := "Too many failed login attempts. Please try again later."

  /** An entry of `loginAttempts`. */
  datatype Attempt = Attempt(count: int, lastAttempt: int)

  /** The value `checkLoginRateLimit` returns. */
  datatype Decision = Allowed | Locked(retryAfter: int, message: string)

  datatype Charged = Charged(attempts: map<string, Attempt>, decision: Decision)

  /**
   * `checkLoginRateLimit(identifier)` at time `now`: every call is charged,
   * whatever the login's outcome; a missing entry reads as `{count: 0, lastAttempt: 0}`.
   */
  function Charge(attempts: map<string, Attempt>, identifier: string, now: int): (r: Charged)
    ensures r.attempts.Keys == attempts.Keys + {identifier}
    ensures forall k | k in attempts && k != identifier :: r.attempts[k] == attempts[k]
    ensures r.attempts[identifier].lastAttempt == now
    ensures CountsPositive(attempts) ==> CountsPositive(r.attempts)
    ensures r.decision.Locked? <==> r.attempts[identifier].count > MAX_LOGIN_ATTEMPTS
    ensures r.decision.Locked? ==> r.decision == Locked(LOCK_RETRY_AFTER, LOCK_MESSAGE)
  {
    var previous := if identifier in attempts then attempts[identifier] else Attempt(0, 0);
    if now - previous.lastAttempt > RESET_WINDOW_MS then
      Charged(attempts[identifier := Attempt(1, now)], Allowed)
    else
      var next := Attempt(previous.count + 1, now);
      Charged(attempts[identifier := next],
              if next.count > MAX_LOGIN_ATTEMPTS then Locked(LOCK_RETRY_AFTER, LOCK_MESSAGE) else Allowed)
  }

  /** Every count in the map is at least one. */
  predicate CountsPositive(attempts: map<string, Attempt>) {
    forall k | k in attempts :: attempts[k].count >= 1
  }

  /**
   * A first attempt, or one after more than fifteen quiet minutes, starts a
   * new count of one and is allowed (the reset branch, or for a missing entry
   * and a clock below fifteen minutes the increment from zero).
   */
  lemma NewWindow(attempts: map<string, Attempt>, identifier: string, now: int)
    requires identifier !in attempts || now - attempts[identifier].lastAttempt > RESET_WINDOW_MS
    ensures Charge(attempts, identifier, now) == Charged(attempts[identifier := Attempt(1, now)], Allowed)
  {
  }

  /** Within the window the count goes up by exactly one, and the call is locked exactly when it passes three. */
  lemma SameWindow(attempts: map<string, Attempt>, identifier: string, now: int)
    requires identifier in attempts && now - attempts[identifier].lastAttempt <= RESET_WINDOW_MS
    ensures var r := Charge(attempts, identifier, now);
      && r.attempts[identifier] == Attempt(attempts[identifier].count + 1, now)
      && (r.decision.Locked? <==> attempts[identifier].count >= MAX_LOGIN_ATTEMPTS)
  {
  }

  /** Once locked, an identifier stays locked for every attempt made within fifteen minutes of the previous one. */
  lemma StaysLocked(attempts: map<string, Attempt>, identifier: string, now: int)
    requires identifier in attempts && attempts[identifier].count > MAX_LOGIN_ATTEMPTS
    requires now - attempts[identifier].lastAttempt <= RESET_WINDOW_MS
    ensures Charge(attempts, identifier, now).decision.Locked?
    ensures Charge(attempts, identifier, now).attempts[identifier].count > MAX_LOGIN_ATTEMPTS
  {
  }

  /**
   * The lock lifts after fifteen quiet minutes, even though the locked reply
   * advertised `retryAfter` = 1800 s; every locked attempt also pushes that
   * point back, because it updates `lastAttempt`.
   */
  lemma LockLiftsAfterQuietWindow(attempts: map<string, Attempt>, identifier: string, now: int)
    requires identifier in attempts
    requires now - attempts[identifier].lastAttempt > RESET_WINDOW_MS
    ensures Charge(attempts, identifier, now).decision == Allowed
  {
  }

  /** `clearLoginAttempts` then a new attempt: the count starts again from one. */
  lemma ClearStartsFresh(attempts: map<string, Attempt>, identifier: string, now: int)
    ensures Charge(attempts - {identifier}, identifier, now).attempts[identifier] == Attempt(1, now)
    ensures Charge(attempts - {identifier}, identifier, now).decision == Allowed
  {
  }

  /** A charge followed by `clearLoginAttempts` on the same key leaves the map as if that key had simply been removed. */
  lemma ChargeThenClear(attempts: map<string, Attempt>, identifier: string, now: int)
    ensures Charge(attempts, identifier, now).attempts - {identifier} == attempts - {identifier}
  {
  }

  // ---------------------------------------------------------------------------
  // Runs of attempts on one identifier
  // ---------------------------------------------------------------------------

  datatype Run = Run(attempts: map<string, Attempt>, decisions: seq<Decision>)

  /** Charging `identifier` at each of `times` in turn. */
  function ChargeAll(attempts: map<string, Attempt>, identifier: string, times: seq<int>): (r: Run)
    ensures |r.decisions| == |times|
    ensures attempts.Keys <= r.attempts.Keys
    ensures times != [] ==> identifier in r.attempts
    decreases |times|
  {
    if times == [] then Run(attempts, [])
    else
      var first := Charge(attempts, identifier, times[0]);
      var rest := ChargeAll(first.attempts, identifier, times[1..]);
      Run(rest.attempts, [first.decision] + rest.decisions)
  }

  /** No gap between consecutive attempts exceeds fifteen minutes. */
  predicate CloseTogether(times: seq<int>) {
    forall i | 0 < i < |times| :: times[i] - times[i - 1] <= RESET_WINDOW_MS
  }

  /**
   * Continuing a count of `c` with attempts close together: attempt `i` of
   * the run is the `(c + i + 1)`-th of the window and is locked exactly when
   * that exceeds three.
   */
  lemma {:induction false} ContinueRun(attempts: map<string, Attempt>, identifier: string, times: seq<int>)
    requires identifier in attempts && |times| >= 1
    requires times[0] - attempts[identifier].lastAttempt <= RESET_WINDOW_MS
    requires CloseTogether(times)
    ensures var r := ChargeAll(attempts, identifier, times);
      && r.attempts[identifier] == Attempt(attempts[identifier].count + |times|, times[|times| - 1])
      && forall i | 0 <= i < |times| ::
           r.decisions[i].Locked? <==> attempts[identifier].count + i + 1 > MAX_LOGIN_ATTEMPTS
    decreases |times|
  {
    var c := attempts[identifier].count;
    var first := Charge(attempts, identifier, times[0]);
    SameWindow(attempts, identifier, times[0]);
    if |times| > 1 {
      var tail := times[1..];
      assert CloseTogether(tail) by {
        forall i | 0 < i < |tail| ensures tail[i] - tail[i - 1] <= RESET_WINDOW_MS {
          assert tail[i] == times[i + 1] && tail[i - 1] == times[i];
        }
      }
      assert tail[0] - first.attempts[identifier].lastAttempt <= RESET_WINDOW_MS by {
        assert tail[0] == times[1];
      }
      ContinueRun(first.attempts, identifier, tail);
      var rest := ChargeAll(first.attempts, identifier, tail);
      assert ChargeAll(attempts, identifier, times).decisions == [first.decision] + rest.decisions;
      assert times[|times| - 1] == tail[|tail| - 1];
    }
  }

  /**
   * From no entry, attempts no more than fifteen minutes apart: the first
   * three are allowed and every later one is locked, so the fourth is the
   * first to be refused; the count is the number of attempts.
   */
  lemma {:induction false} FourthAttemptLocked(attempts: map<string, Attempt>, identifier: string, times: seq<int>)
    requires identifier !in attempts && |times| >= 1
    requires CloseTogether(times)
    ensures var r := ChargeAll(attempts, identifier, times);
      && r.attempts[identifier] == Attempt(|times|, times[|times| - 1])
      && forall i | 0 <= i < |times| :: r.decisions[i].Locked? <==> i >= MAX_LOGIN_ATTEMPTS
  {
    var first := Charge(attempts, identifier, times[0]);
    NewWindow(attempts, identifier, times[0]);
    if |times| > 1 {
      var tail := times[1..];
      assert CloseTogether(tail) by {
        forall i | 0 < i < |tail| ensures tail[i] - tail[i - 1] <= RESET_WINDOW_MS {
          assert tail[i] == times[i + 1] && tail[i - 1] == times[i];
        }
      }
      assert tail[0] == times[1];
      ContinueRun(first.attempts, identifier, tail);
      var rest := ChargeAll(first.attempts, identifier, tail);
      assert ChargeAll(attempts, identifier, times).decisions == [first.decision] + rest.decisions;
      assert times[|times| - 1] == tail[|tail| - 1];
    }
  }

  /** A run on one identifier leaves every other identifier's entry as it was. */
  lemma {:induction false} RunIsolated(attempts: map<string, Attempt>, identifier: string, times: seq<int>, other: string)
    requires other != identifier
    ensures var r := ChargeAll(attempts, identifier, times);
      (other in r.attempts <==> other in attempts) && (other in attempts ==> r.attempts[other] == attempts[other])
    decreases |times|
  {
    if times != [] {
      RunIsolated(Charge(attempts, identifier, times[0]).attempts, identifier, times[1..], other);
    }
  }

  // ---------------------------------------------------------------------------
  // The lock as announced: thirty minutes
  // ---------------------------------------------------------------------------

  /**
   * The attempt that locks an identifier announces `retryAfter` = 1800 s,
   * yet the identifier is let through again fifteen minutes and one
   * millisecond later.
   */
  lemma LockLiftsBeforeRetryAfter(attempts: map<string, Attempt>, identifier: string, t: int)
    requires identifier in attempts && attempts[identifier].count == MAX_LOGIN_ATTEMPTS
    requires t - attempts[identifier].lastAttempt <= RESET_WINDOW_MS
    ensures var locking := Charge(attempts, identifier, t);
      && locking.decision == Locked(LOCK_RETRY_AFTER, LOCK_MESSAGE)
      && Charge(locking.attempts, identifier, t + RESET_WINDOW_MS + 1).decision == Allowed
      && RESET_WINDOW_MS + 1 < LOCK_RETRY_AFTER * 1000
  {
  }

  /**
   * `checkLoginRateLimit` with the lock lasting what it announces: a locked
   * identifier's count is reset only after `LOCK_TIME_MS` without attempts;
   * an identifier that is not locked keeps the fifteen-minute window.
   */
  function ChargeHoldingLock(attempts: map<string, Attempt>, identifier: string, now: int): (r: Charged)
    ensures r.attempts.Keys == attempts.Keys + {identifier}
    ensures forall k | k in attempts && k != identifier :: r.attempts[k] == attempts[k]
    ensures r.attempts[identifier].lastAttempt == now
    ensures r.decision.Locked? <==> r.attempts[identifier].count > MAX_LOGIN_ATTEMPTS
  {
    var previous := if identifier in attempts then attempts[identifier] else Attempt(0, 0);
    var window := if previous.count > MAX_LOGIN_ATTEMPTS then LOCK_TIME_MS else RESET_WINDOW_MS;
    if now - previous.lastAttempt > window then
      Charged(attempts[identifier := Attempt(1, now)], Allowed)
    else
      var next := Attempt(previous.count + 1, now);
      Charged(attempts[identifier := next],
              if next.count > MAX_LOGIN_ATTEMPTS then Locked(LOCK_RETRY_AFTER, LOCK_MESSAGE) else Allowed)
  }

  /** Until an identifier is locked, the corrected limiter decides exactly as the one as written. */
  lemma HoldingLockAgreesUntilLocked(attempts: map<string, Attempt>, identifier: string, now: int)
    requires identifier !in attempts || attempts[identifier].count <= MAX_LOGIN_ATTEMPTS
    ensures ChargeHoldingLock(attempts, identifier, now) == Charge(attempts, identifier, now)
  {
  }

  /**
   * With the corrected limiter the lock set at `t` refuses every attempt for
   * the announced `retryAfter`, and lifts once that time has passed quietly.
   */
  lemma HeldLockLastsRetryAfter(attempts: map<string, Attempt>, identifier: string, t: int, later: int)
    requires identifier in attempts && attempts[identifier].count == MAX_LOGIN_ATTEMPTS
    requires t - attempts[identifier].lastAttempt <= RESET_WINDOW_MS
    ensures var locking := ChargeHoldingLock(attempts, identifier, t);
      && locking.decision == Locked(LOCK_RETRY_AFTER, LOCK_MESSAGE)
      && (later - t <= LOCK_RETRY_AFTER * 1000 ==> ChargeHoldingLock(locking.attempts, identifier, later).decision.Locked?)
      && (later - t > LOCK_RETRY_AFTER * 1000 ==> ChargeHoldingLock(locking.attempts, identifier, later).decision == Allowed)
  {
  }
}
