/**
 * The per-provider circuit breaker, specified by the log of call outcomes alone: the three
 * states, the failure counter and the opening time are bookkeeping that the log determines.
 */
module CircuitBreakers {

  datatype Outcome = Success | Failure(at: real)

  /** How many failures end the log. */
  function TrailingFailures(log: seq<Outcome>): nat {
    if log == [] || log[|log| - 1].Success? then 0
    else TrailingFailures(log[..|log| - 1]) + 1
  }

  /** A threshold below one behaves like one: the first failure opens the breaker. */
  function Threshold(failureThreshold: int): (t: int)
    ensures t >= 1
  {
    if failureThreshold >= 1 then failureThreshold else 1
  }

  /** Whether a call is let through at time `now`. */
  predicate Admits(log: seq<Outcome>, failureThreshold: int, recoverySeconds: int, now: real) {
    || TrailingFailures(log) < Threshold(failureThreshold)
    || now - log[|log| - 1].at >= recoverySeconds as real
  }

  lemma {:induction false} TrailingFailuresAtLeast(log: seq<Outcome>, n: nat)
    ensures TrailingFailures(log) >= n
       <==> |log| >= n && forall i :: |log| - n <= i < |log| ==> log[i].Failure?
  {
    if log != [] && n > 0 {
      var init := log[..|log| - 1];
      TrailingFailuresAtLeast(init, n - 1);
      if TrailingFailures(log) >= n {
        forall i | |log| - n <= i < |log| ensures log[i].Failure? {
          assert i < |init| ==> log[i] == init[i];
        }
      } else if log[|log| - 1].Failure? && |log| >= n {
        var i :| |init| - (n - 1) <= i < |init| && !init[i].Failure?;
        assert log[i] == init[i];
      }
    }
  }

  /** As many failures as the threshold, but at least one, end the log. */
  ghost predicate Tripped(log: seq<Outcome>, failureThreshold: int) {
    && log != [] && log[|log| - 1].Failure? && |log| >= failureThreshold
    && forall i :: 0 <= i && |log| - failureThreshold <= i < |log| ==> log[i].Failure?
  }

  /**
   * A call is refused exactly when the last outcomes on record, as many as the threshold and at
   * least one, are all failures, and the recovery time since the last of them is not over.
   */
  lemma RefusedIffTripped(log: seq<Outcome>, failureThreshold: int, recoverySeconds: int, now: real)
    ensures !Admits(log, failureThreshold, recoverySeconds, now)
       <==> Tripped(log, failureThreshold) && now - log[|log| - 1].at < recoverySeconds as real
  {
    var n := if failureThreshold >= 1 then failureThreshold else 1;
    TrailingFailuresAtLeast(log, n);
    if TrailingFailures(log) >= n {
      assert log[|log| - 1].Failure?;
    }
  }

  datatype Circuit = Closed | Open | HalfOpen

  class CircuitBreaker {
    const failureThreshold: int
    const recoverySeconds: int
    var failures: nat
    var state: Circuit
    var openedAt: real

    ghost var log: seq<Outcome>
    ghost var clock: real

    ghost predicate Valid()
      reads this
    {
      && failures == TrailingFailures(log)
      && (state.Closed? <==> failures < Threshold(failureThreshold))
      && (!state.Closed? ==> log[|log| - 1] == Failure(openedAt))
      && (state.HalfOpen? ==> clock - openedAt >= recoverySeconds as real)
    }

    constructor (failureThreshold: int, recoverySeconds: int, ghost now: real)
      ensures Valid() && log == [] && clock == now
      ensures this.failureThreshold == failureThreshold && this.recoverySeconds == recoverySeconds
    {
      this.failureThreshold, this.recoverySeconds := failureThreshold, recoverySeconds;
      failures, state, openedAt := 0, Closed, 0.0;
      log, clock := [], now;
    }

    method RecordSuccess()
      requires Valid()
      modifies this
      ensures Valid() && clock == old(clock)
      ensures log == old(log) + [Success]
    {
      failures := 0;
      state := Closed;
      log := log + [Success];
    }

    method RecordFailure(now: real)
      requires Valid() && clock <= now
      modifies this
      ensures Valid() && clock == now
      ensures log == old(log) + [Failure(now)]
    {
      failures := failures + 1;
      assert (log + [Failure(now)])[..|log|] == log;
      log, clock := log + [Failure(now)], now;
      if failures >= failureThreshold {
        state := Open;
        openedAt := now;
      }
    }

    /** The answer depends on the outcome log and the time alone, and asking leaves no trace in the log. */
    method Allow(now: real) returns (allowed: bool)
      requires Valid() && clock <= now
      modifies this
      ensures Valid() && clock == now && log == old(log)
      ensures allowed == Admits(log, failureThreshold, recoverySeconds, now)
      ensures allowed <==> !(Tripped(log, failureThreshold) && now - log[|log| - 1].at < recoverySeconds as real)
    {
      RefusedIffTripped(log, failureThreshold, recoverySeconds, now);
      clock := now;
      match state {
        case Closed => allowed := true;
        case Open =>
          if now - openedAt >= recoverySeconds as real {
            state := HalfOpen;
            allowed := true;
          } else {
            allowed := false;
          }
        case HalfOpen => allowed := true;
      }
    }
  }

  // ---------- consequences for callers ----------

  /** A granted call stays granted, whatever time passes and whatever successes arrive, until a failure is recorded. */
  lemma {:induction false} AdmitsUntilFailure(log: seq<Outcome>, more: seq<Outcome>, failureThreshold: int,
      recoverySeconds: int, now: real, later: real)
    requires Admits(log, failureThreshold, recoverySeconds, now) && now <= later
    requires forall i :: 0 <= i < |more| ==> more[i].Success?
    ensures Admits(log + more, failureThreshold, recoverySeconds, later)
  {
    if more == [] {
      assert log + more == log;
    } else {
      assert (log + more)[|log + more| - 1] == more[|more| - 1];
    }
  }

  /**
   * Once the recovery time has passed, every caller is let through until an outcome arrives:
   * nothing limits the half-open state to one trial. The breaker refuses again exactly when a
   * further failure is on record.
   */
  lemma RecoveryAdmitsEveryone(
      log: seq<Outcome>, failureThreshold: int, recoverySeconds: int, now: real, next: Outcome)
    requires TrailingFailures(log) >= Threshold(failureThreshold) && recoverySeconds > 0
    requires Admits(log, failureThreshold, recoverySeconds, now)
    requires next.Failure? ==> next.at == now
    ensures forall later :: later >= now ==> Admits(log, failureThreshold, recoverySeconds, later)
    ensures Admits(log + [next], failureThreshold, recoverySeconds, now) <==> next.Success?
  {
    assert (log + [next])[..|log|] == log;
  }

  /** A call: when it was admitted and when its failure was recorded. */
  datatype FailedCall = FailedCall(admitted: real, failed: real)

  function FailureLog(calls: seq<FailedCall>): seq<Outcome> {
    if calls == [] then []
    else FailureLog(calls[..|calls| - 1]) + [Failure(calls[|calls| - 1].failed)]
  }

  /** Calls to a provider that always fails, each admitted by the breaker after the one before had failed. */
  ghost predicate DeadRun(log: seq<Outcome>, calls: seq<FailedCall>, failureThreshold: int, recoverySeconds: int) {
    calls == [] ||
    var init, last := calls[..|calls| - 1], calls[|calls| - 1];
    && DeadRun(log, init, failureThreshold, recoverySeconds)
    && (init != [] ==> init[|init| - 1].failed <= last.admitted)
    && Admits(log + FailureLog(init), failureThreshold, recoverySeconds, last.admitted)
    && last.admitted <= last.failed
  }

  /** Any admitted call that fails, made after the one before has failed, continues such a run. */
  lemma {:induction false} DeadRunGoesOn(log: seq<Outcome>, calls: seq<FailedCall>, failureThreshold: int,
      recoverySeconds: int, next: FailedCall)
    requires DeadRun(log, calls, failureThreshold, recoverySeconds) && next.admitted <= next.failed
    requires calls != [] ==> calls[|calls| - 1].failed <= next.admitted
    requires Admits(log + FailureLog(calls), failureThreshold, recoverySeconds, next.admitted)
    ensures DeadRun(log, calls + [next], failureThreshold, recoverySeconds)
    ensures FailureLog(calls + [next]) == FailureLog(calls) + [Failure(next.failed)]
  {
    assert (calls + [next])[..|calls|] == calls;
  }

  lemma {:induction false} FailuresAddUp(log: seq<Outcome>, calls: seq<FailedCall>)
    ensures TrailingFailures(log + FailureLog(calls)) == TrailingFailures(log) + |calls|
    ensures calls != [] ==> var all := log + FailureLog(calls);
      all[|all| - 1] == Failure(calls[|calls| - 1].failed)
  {
    if calls == [] {
      assert log + FailureLog(calls) == log;
    } else {
      var init := calls[..|calls| - 1];
      FailuresAddUp(log, init);
      var all := log + FailureLog(calls);
      assert all[..|all| - 1] == log + FailureLog(init);
    }
  }

  function Times(n: nat, r: real): real {
    if n == 0 then 0.0 else Times(n - 1, r) + r
  }

  /** `Times` adds up a product. */
  lemma {:induction false} TimesIsProduct(n: nat, r: real)
    ensures Times(n, r) == n as real * r
  {
    if n > 0 {
      TimesIsProduct(n - 1, r);
      assert n as real * r == (n - 1) as real * r + r;
    }
  }

  /** From the threshold on, each admission is at least the recovery time after the one before. */
  lemma {:induction false} AdmissionsAreSpaced(
      log: seq<Outcome>, calls: seq<FailedCall>, failureThreshold: int, recoverySeconds: int)
    requires DeadRun(log, calls, failureThreshold, recoverySeconds)
    requires |calls| >= Threshold(failureThreshold)
    ensures var t := if failureThreshold >= 1 then failureThreshold else 1;
      calls[|calls| - 1].admitted - calls[t - 1].admitted >= Times(|calls| - t, recoverySeconds as real)
  {
    var t := Threshold(failureThreshold);
    if |calls| > t {
      var init := calls[..|calls| - 1];
      AdmissionsAreSpaced(log, init, failureThreshold, recoverySeconds);
      FailuresAddUp(log, init);
      assert init[t - 1] == calls[t - 1];
    }
  }

  lemma {:induction false} AdmissionsInOrder(
      log: seq<Outcome>, calls: seq<FailedCall>, failureThreshold: int, recoverySeconds: int, i: nat)
    requires DeadRun(log, calls, failureThreshold, recoverySeconds) && i < |calls|
    ensures calls[0].admitted <= calls[i].admitted <= calls[|calls| - 1].admitted
  {
    var init := calls[..|calls| - 1];
    if i < |init| {
      AdmissionsInOrder(log, init, failureThreshold, recoverySeconds, i);
      assert init[|init| - 1].admitted <= init[|init| - 1].failed;
    } else if init != [] {
      AdmissionsInOrder(log, init, failureThreshold, recoverySeconds, 0);
      assert init[|init| - 1].admitted <= init[|init| - 1].failed;
    }
  }

  /**
   * A provider that never succeeds is called rarely: whatever was on record before, the calls
   * admitted within `span` seconds number at most threshold + floor(span / recovery).
   */
  lemma DeadProviderIsCalledRarely(
      log: seq<Outcome>, calls: seq<FailedCall>, failureThreshold: int, recoverySeconds: int, span: real)
    requires recoverySeconds > 0 && span >= 0.0
    requires DeadRun(log, calls, failureThreshold, recoverySeconds)
    requires calls != [] ==> calls[|calls| - 1].admitted - calls[0].admitted <= span
    ensures |calls| <= (if failureThreshold >= 1 then failureThreshold else 1) + (span / recoverySeconds as real).Floor
  {
    var t, r := Threshold(failureThreshold), recoverySeconds as real;
    if |calls| <= t {
      QuotientFloor(span, r, 0);
    } else {
      AdmissionsAreSpaced(log, calls, failureThreshold, recoverySeconds);
      AdmissionsInOrder(log, calls, failureThreshold, recoverySeconds, t - 1);
      QuotientFloor(span, r, |calls| - t);
    }
  }

  lemma QuotientFloor(span: real, r: real, n: nat)
    requires r > 0.0 && Times(n, r) <= span
    ensures n <= (span / r).Floor
  {
    TimesIsProduct(n, r);
    Divide(span, r, n as real);
  }

  lemma Divide(span: real, r: real, x: real)
    requires r > 0.0 && x * r <= span
    ensures x <= span / r
  {
    var q := span / r;
    assert q * r == span;
    assert x > q ==> x * r > q * r;
  }
}
