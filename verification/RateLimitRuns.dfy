/**
 * What the limiter guarantees over whole runs: request admissions, the advertised retry
 * delay, and token overshoot when requests are checked before and charged after a call.
 */
module RateLimitRuns {
  import opened Windows
  import opened Traces
  import opened Shares
  import opened RateLimiter

  // ---------- requests per minute ----------

  /** The admission log after RPM checks at these times, all with the same limit. */
  function Admitted(checks: seq<real>, limit: int): seq<real>
    requires limit >= 1
  {
    if checks == [] then []
    else
      var log, now := Admitted(checks[..|checks| - 1], limit), checks[|checks| - 1];
      if RpmDecision(log, now, limit).Allowed? then log + [now] else log
  }

  lemma {:induction false} AdmittedPast(checks: seq<real>, limit: int, now: real)
    requires limit >= 1 && Past(checks, now)
    ensures Past(Admitted(checks, limit), now)
  {
    if checks != [] {
      var init, last := checks[..|checks| - 1], checks[|checks| - 1];
      AdmittedPast(init, limit, last);
      PastAppend(Admitted(init, limit), last, last);
      PastAppend(Admitted(init, limit), last, now);
      assert (Admitted(init, limit) + [last])[..|Admitted(init, limit)|] == Admitted(init, limit);
    }
  }

  /** No closed 60-second interval of any run holds more than `limit` admissions. */
  lemma {:induction false} RpmSafety(checks: seq<real>, limit: int, now: real, lo: real)
    requires limit >= 1 && Past(checks, now)
    ensures CountBetween(Admitted(checks, limit), lo, lo + 60.0) <= limit
  {
    if checks != [] {
      var init, last := checks[..|checks| - 1], checks[|checks| - 1];
      var log := Admitted(init, limit);
      RpmSafety(init, limit, last, lo);
      if RpmDecision(log, last, limit).Allowed? && lo <= last <= lo + WINDOW {
        assert (log + [last])[..|log|] == log;
        CountWithinWindow(log, last - WINDOW, lo, lo + WINDOW);
      } else if RpmDecision(log, last, limit).Allowed? {
        assert (log + [last])[..|log|] == log;
      }
    }
  }

  /** A check is denied exactly when the interval that ends now already holds `limit` admissions, and logged otherwise. */
  lemma DeniedIffWindowFull(checks: seq<real>, limit: int, now: real)
    requires limit >= 1 && Past(checks, now)
    ensures var log := Admitted(checks, limit);
      && (RpmDecision(log, now, limit).Denied? <==> CountBetween(log, now - 60.0, now) == limit)
      && Admitted(checks + [now], limit) == if CountBetween(log, now - 60.0, now) == limit then log else log + [now]
  {
    var log := Admitted(checks, limit);
    assert (checks + [now])[..|checks|] == checks;
    AdmittedPast(checks, limit, now);
    PastIndices(log, now);
    CountIsWindow(log, now - WINDOW, now);
    RpmSafety(checks, limit, now, now - WINDOW);
  }

  lemma {:induction false} SinceShrinks(log: seq<real>, cutoff: real)
    ensures |Since(log, cutoff)| <= |log|
    ensures log != [] && log[0] < cutoff ==> |Since(log, cutoff)| < |log|
  {
    if log != [] {
      SinceShrinks(log[..|log| - 1], cutoff);
    }
  }

  /** A full window stays full exactly until its oldest entry leaves it. */
  lemma OldestLeaves(log: seq<real>, now: real, later: real)
    requires Past(log, now) && now <= later
    requires Since(log, now - 60.0) != []
    ensures var recent := Since(log, now - 60.0);
      && now - 60.0 <= recent[0] <= now
      && (later > recent[0] + 60.0 ==> |Since(log, later - 60.0)| < |recent|)
      && (later <= recent[0] + 60.0 ==> Since(log, later - 60.0) == recent)
  {
    var recent := Since(log, now - WINDOW);
    SinceOrdered(log, now - WINDOW, now);
    PastIndices(recent, now);
    SinceTwice(log, now - WINDOW, later - WINDOW);
    if later > recent[0] + WINDOW {
      SinceShrinks(recent, later - WINDOW);
    } else {
      SinceIsSuffix(recent, 0, later - WINDOW);
    }
  }

  /** On any log the delay says how long the window stays as full as it is: up to `now + r`, and no longer. */
  lemma RequestDelayIsExact(admissions: seq<real>, limit: int, now: real, later: real)
    requires limit >= 1 && Past(admissions, now) && now <= later
    requires RpmDecision(admissions, now, limit).Denied?
    ensures var r := RpmDecision(admissions, now, limit).retryAfter;
      var held, still := CountBetween(admissions, now - 60.0, now), CountBetween(admissions, later - 60.0, later);
      && 0.0 <= r <= 60.0
      && (still == held <==> later <= now + r) && (still < held <==> later > now + r)
  {
    PastIndices(admissions, now);
    CountIsWindow(admissions, now - 60.0, now);
    CountIsWindow(admissions, later - 60.0, later);
    OldestLeaves(admissions, now, later);
  }

  /**
   * After a denial with retry `r`, and with nothing admitted in between, every check up to
   * `now + r` is denied and every later one is admitted.
   */
  lemma RetryAfterIsExact(checks: seq<real>, limit: int, now: real, later: real)
    requires limit >= 1 && Past(checks, now) && now <= later
    requires RpmDecision(Admitted(checks, limit), now, limit).Denied?
    ensures var r := RpmDecision(Admitted(checks, limit), now, limit).retryAfter;
      && 0.0 <= r <= 60.0
      && (RpmDecision(Admitted(checks, limit), later, limit).Allowed? <==> later > now + r)
  {
    var log := Admitted(checks, limit);
    AdmittedPast(checks, limit, now);
    assert |Since(log, now - WINDOW)| == limit by {
      DeniedIffWindowFull(checks, limit, now);
      PastIndices(log, now);
      CountIsWindow(log, now - WINDOW, now);
    }
    OldestLeaves(log, now, later);
  }

  /** The `Retry-After` header: whole seconds, rounded up past the exact delay. */
  function RetryAfterHeader(retryAfter: real): int {
    retryAfter.Floor + 1
  }

  /** A client that waits the advertised whole seconds is admitted, and is never told to wait more than 61. */
  lemma RetryAfterHeaderSuffices(checks: seq<real>, limit: int, now: real, later: real)
    requires limit >= 1 && Past(checks, now)
    requires RpmDecision(Admitted(checks, limit), now, limit).Denied?
    requires later >= now + RetryAfterHeader(RpmDecision(Admitted(checks, limit), now, limit).retryAfter) as real
    ensures var r := RpmDecision(Admitted(checks, limit), now, limit).retryAfter;
      1 <= RetryAfterHeader(r) <= 61 && r < RetryAfterHeader(r) as real <= r + 1.0
    ensures RpmDecision(Admitted(checks, limit), later, limit).Allowed?
  {
    RetryAfterIsExact(checks, limit, now, now);
    RetryAfterIsExact(checks, limit, now, later);
  }

  // ---------- tokens per minute ----------

  lemma {:induction false} ChargesSinceShrinks(log: seq<Charge>, cutoff: real)
    ensures |ChargesSince(log, cutoff)| <= |log|
    ensures log != [] && log[0].at < cutoff ==> |ChargesSince(log, cutoff)| < |log|
  {
    if log != [] {
      ChargesSinceShrinks(log[..|log| - 1], cutoff);
    }
  }

  lemma {:induction false} FewerChargesWeighLess(log: seq<Charge>, cutoff: real, now: real)
    requires PastCharges(log, now) && |ChargesSince(log, cutoff)| < |log|
    ensures Total(ChargesSince(log, cutoff)) < Total(log)
  {
    var init, last := log[..|log| - 1], log[|log| - 1];
    if |ChargesSince(init, cutoff)| < |init| {
      FewerChargesWeighLess(init, cutoff, last.at);
    } else {
      ChargesSinceShrinks(init, cutoff);
      WholeWindow(init, cutoff);
    }
    TotalAppend(ChargesSince(init, cutoff), last);
    assert ChargesSince(init, cutoff) + [] == ChargesSince(init, cutoff);
  }

  lemma {:induction false} WholeWindow(log: seq<Charge>, cutoff: real)
    requires |ChargesSince(log, cutoff)| == |log|
    ensures ChargesSince(log, cutoff) == log
  {
    if log != [] {
      ChargesSinceShrinks(log[..|log| - 1], cutoff);
      WholeWindow(log[..|log| - 1], cutoff);
    }
  }

  /** A window of charges stays whole, and so does its total, exactly until its oldest charge leaves it. */
  lemma OldestChargeLeaves(charges: seq<Charge>, now: real, later: real)
    requires PastCharges(charges, now) && now <= later
    requires ChargesSince(charges, now - 60.0) != []
    ensures var recent := ChargesSince(charges, now - 60.0);
      && now - 60.0 <= recent[0].at <= now
      && (later <= recent[0].at + 60.0 ==> ChargesSince(charges, later - 60.0) == recent)
      && (later > recent[0].at + 60.0 ==>
           |ChargesSince(charges, later - 60.0)| < |recent| && Total(ChargesSince(charges, later - 60.0)) < Total(recent))
  {
    var recent := ChargesSince(charges, now - 60.0);
    ChargesSinceOrdered(charges, now - 60.0, now);
    PastChargesIndices(recent, now);
    ChargesSinceTwice(charges, now - 60.0, later - 60.0);
    if later > recent[0].at + 60.0 {
      ChargesSinceShrinks(recent, later - 60.0);
      FewerChargesWeighLess(recent, later - 60.0, now);
    } else {
      ChargesSinceIsSuffix(recent, 0, later - 60.0);
    }
  }

  /**
   * What the delay of a token refusal means, when nothing is charged in between: the minute up to
   * any time within the delay holds the same charges, and right after it the oldest is gone. With
   * nothing charged in the last minute, which only a limit of at most 0 refuses, the delay is 0.
   */
  lemma {:induction false} TokenDelayIsExact(charges: seq<Charge>, tpmLimit: int, now: real, later: real)
    requires PastCharges(charges, now) && now <= later
    requires TpmDecision(charges, now, tpmLimit).Denied?
    ensures var r := TpmDecision(charges, now, tpmLimit).retryAfter;
      var used, still := UsedBetween(charges, now - 60.0, now), UsedBetween(charges, later - 60.0, later);
      && 0.0 <= r <= 60.0
      && (used == 0 ==> r == 0.0)
      && (used != 0 ==> (still == used <==> later <= now + r) && (still < used <==> later > now + r))
      && (TpmDecision(charges, later, tpmLimit).Allowed? ==> later > now + r)
  {
    var recent := ChargesSince(charges, now - 60.0);
    WindowTotals(charges, now, later);
    if recent != [] {
      OldestChargeLeaves(charges, now, later);
      assert TpmDecision(charges, now, tpmLimit).retryAfter == recent[0].at + 60.0 - now;
    }
  }

  /** What was used in the minute up to now, and to a later time, is the total of the window then; none is negative. */
  lemma {:induction false} WindowTotals(charges: seq<Charge>, now: real, later: real)
    requires PastCharges(charges, now) && now <= later
    ensures UsedBetween(charges, now - 60.0, now) == Total(ChargesSince(charges, now - 60.0)) >= 0
    ensures UsedBetween(charges, later - 60.0, later) == Total(ChargesSince(charges, later - 60.0)) >= 0
    ensures UsedBetween(charges, now - 60.0, now) == 0 <==> ChargesSince(charges, now - 60.0) == []
    ensures UsedBetween(charges, later - 60.0, later) <= UsedBetween(charges, now - 60.0, now)
  {
    PastChargesIndices(charges, now);
    UsedIsWindow(charges, now - 60.0, now);
    UsedIsWindow(charges, later - 60.0, later);
    ChargesSinceOrdered(charges, now - 60.0, now);
    TotalIsZeroIffEmpty(ChargesSince(charges, now - 60.0), now);
    WindowSlides(charges, now, now, later);
  }

  /**
   * One tenant's token accounting, one atomic step at a time: a check that may let a request
   * through, a request that finishes and is charged, and one that ends without a charge.
   */
  datatype TpmStep =
    | Check(at: real)
    | Finish(at: real, tokens: int)
    | Abandon(at: real)

  datatype TpmState = TpmState(charges: seq<Charge>, inFlight: nat, clock: real)

  function After(s: TpmState, step: TpmStep, tpmLimit: int): TpmState {
    match step
    case Check(at) =>
      TpmState(s.charges, if TpmDecision(s.charges, at, tpmLimit).Allowed? then s.inFlight + 1 else s.inFlight, at)
    case Finish(at, tokens) =>
      TpmState(if tokens > 0 then s.charges + [Charge(at, tokens)] else s.charges,
               if s.inFlight > 0 then s.inFlight - 1 else 0, at)
    case Abandon(at) =>
      TpmState(s.charges, if s.inFlight > 0 then s.inFlight - 1 else 0, at)
  }

  /** Time does not run back, only admitted requests finish, and none uses more than `most` tokens. */
  predicate Enabled(s: TpmState, step: TpmStep, most: nat) {
    && s.clock <= step.at
    && (step.Check? || s.inFlight > 0)
    && (step.Finish? ==> step.tokens <= most)
  }

  function Run(trace: Trace<TpmStep>, tpmLimit: int, start: real): TpmState {
    match trace
    case Start => TpmState([], 0, start)
    case Then(before, last) => After(Run(before, tpmLimit, start), last, tpmLimit)
  }

  /** Every step was enabled, and never more than `k` requests were between check and charge. */
  predicate Legal(trace: Trace<TpmStep>, tpmLimit: int, start: real, k: nat, most: nat) {
    match trace
    case Start => true
    case Then(before, last) =>
      && Legal(before, tpmLimit, start, k, most)
      && Enabled(Run(before, tpmLimit, start), last, most)
      && Run(trace, tpmLimit, start).inFlight <= k
  }

  /** What a step does, in terms of the charges of the last minute, and that nothing but time and the limits stops it. */
  lemma StepsMean(s: TpmState, at: real, tokens: nat, tpmLimit: int, most: nat)
    requires PastCharges(s.charges, s.clock) && s.clock <= at
    ensures Enabled(s, Check(at), most)
    ensures After(s, Check(at), tpmLimit) ==
      TpmState(s.charges, if UsedBetween(s.charges, at - 60.0, at) < tpmLimit then s.inFlight + 1 else s.inFlight, at)
    ensures s.inFlight > 0 ==>
      && Enabled(s, Abandon(at), most) && (tokens <= most ==> Enabled(s, Finish(at, tokens), most))
      && After(s, Abandon(at), tpmLimit) == TpmState(s.charges, s.inFlight - 1, at)
      && After(s, Finish(at, tokens), tpmLimit) ==
           TpmState(if tokens > 0 then s.charges + [Charge(at, tokens)] else s.charges, s.inFlight - 1, at)
  {
    RefusedIffTokensSpent(s.charges, at, tpmLimit);
  }

  function Bound(tpmLimit: int, k: nat, most: nat): int {
    (if tpmLimit >= 1 then tpmLimit - 1 else 0) + Share(k, most)
  }

  /** The window never holds more than the bound leaves after reserving `most` for each open request. */
  ghost predicate Reserved(s: TpmState, now: real, tpmLimit: int, k: nat, most: nat) {
    Total(ChargesSince(s.charges, now - WINDOW)) + Share(s.inFlight, most) <= Bound(tpmLimit, k, most)
  }

  lemma {:induction false} RunPast(trace: Trace<TpmStep>, tpmLimit: int, start: real, k: nat, most: nat)
    requires Legal(trace, tpmLimit, start, k, most)
    ensures PastCharges(Run(trace, tpmLimit, start).charges, Run(trace, tpmLimit, start).clock)
  {
    match trace
    case Start =>
    case Then(before, last) =>
      RunPast(before, tpmLimit, start, k, most);
      var s := Run(before, tpmLimit, start);
      PastChargesAppend(s.charges, s.clock, Charge(last.at, if last.Finish? && last.tokens > 0 then last.tokens else 1));
  }

  /** A later window holds no more than an earlier one when nothing was charged in between. */
  lemma WindowSlides(charges: seq<Charge>, clock: real, earlier: real, later: real)
    requires PastCharges(charges, clock) && clock <= earlier <= later
    ensures 0 <= Total(ChargesSince(charges, later - WINDOW)) <= Total(ChargesSince(charges, earlier - WINDOW))
  {
    PastChargesIndices(charges, clock);
    UsedIsWindow(charges, later - WINDOW, later);
    UsedIsWindow(charges, earlier - WINDOW, later);
    UsedMonotone(charges, later - WINDOW, later, earlier - WINDOW, later);
  }

  lemma {:induction false} CheckReserved(s: TpmState, at: real, tpmLimit: int, k: nat, most: nat)
    requires Reserved(s, at, tpmLimit, k, most) && After(s, Check(at), tpmLimit).inFlight <= k
    ensures Reserved(After(s, Check(at), tpmLimit), at, tpmLimit, k, most)
  {
    ShareMonotone(After(s, Check(at), tpmLimit).inFlight, k, most);
  }

  lemma {:induction false} FinishReserved(s: TpmState, at: real, tokens: int, tpmLimit: int, k: nat, most: nat)
    requires Reserved(s, at, tpmLimit, k, most) && s.inFlight > 0 && tokens <= most
    ensures Reserved(After(s, Finish(at, tokens), tpmLimit), at, tpmLimit, k, most)
  {
    assert Share(s.inFlight, most) == Share(s.inFlight - 1, most) + most;
    ChargesSinceAppend(s.charges, Charge(at, tokens), at - WINDOW);
    TotalAppend(ChargesSince(s.charges, at - WINDOW), Charge(at, tokens));
  }

  lemma {:induction false} AbandonReserved(s: TpmState, at: real, tpmLimit: int, k: nat, most: nat)
    requires Reserved(s, at, tpmLimit, k, most) && s.inFlight > 0
    ensures Reserved(After(s, Abandon(at), tpmLimit), at, tpmLimit, k, most)
  {
    assert Share(s.inFlight, most) == Share(s.inFlight - 1, most) + most;
  }

  lemma {:induction false} StepReserved(s: TpmState, step: TpmStep, tpmLimit: int, k: nat, most: nat)
    requires Enabled(s, step, most) && Reserved(s, step.at, tpmLimit, k, most)
    requires After(s, step, tpmLimit).inFlight <= k
    ensures Reserved(After(s, step, tpmLimit), step.at, tpmLimit, k, most)
  {
    match step
    case Check(at) => CheckReserved(s, at, tpmLimit, k, most);
    case Finish(at, tokens) => FinishReserved(s, at, tokens, tpmLimit, k, most);
    case Abandon(at) => AbandonReserved(s, at, tpmLimit, k, most);
  }

  lemma {:induction false} RunReserved(
      trace: Trace<TpmStep>, tpmLimit: int, start: real, k: nat, most: nat, now: real)
    requires Legal(trace, tpmLimit, start, k, most)
    requires Run(trace, tpmLimit, start).clock <= now
    ensures Reserved(Run(trace, tpmLimit, start), now, tpmLimit, k, most)
  {
    match trace
    case Start =>
    case Then(before, last) =>
      var s := Run(before, tpmLimit, start);
      RunReserved(before, tpmLimit, start, k, most, last.at);
      RunPast(before, tpmLimit, start, k, most);
      RunPast(trace, tpmLimit, start, k, most);
      StepReserved(s, last, tpmLimit, k, most);
      Slide(After(s, last, tpmLimit), last.at, now, tpmLimit, k, most);
  }

  lemma Slide(s: TpmState, earlier: real, later: real, tpmLimit: int, k: nat, most: nat)
    requires PastCharges(s.charges, s.clock) && s.clock <= earlier <= later
    requires Reserved(s, earlier, tpmLimit, k, most)
    ensures Reserved(s, later, tpmLimit, k, most)
  {
    WindowSlides(s.charges, s.clock, earlier, later);
  }

  /** An interval of the window's length that contains the latest charge lies inside the window ending at it. */
  lemma IntervalInWindow(charges: seq<Charge>, at: real, lo: real)
    requires PastCharges(charges, at) && lo <= at <= lo + WINDOW
    ensures UsedBetween(charges, lo, lo + WINDOW) <= Total(ChargesSince(charges, at - WINDOW))
  {
    PastChargesIndices(charges, at);
    UsedIsWindow(charges, at - WINDOW, lo + WINDOW);
    UsedMonotone(charges, lo, lo + WINDOW, at - WINDOW, lo + WINDOW);
  }

  lemma {:induction false} IntervalsAreBounded(
      trace: Trace<TpmStep>, tpmLimit: int, start: real, k: nat, most: nat, lo: real)
    requires Legal(trace, tpmLimit, start, k, most)
    ensures UsedBetween(Run(trace, tpmLimit, start).charges, lo, lo + WINDOW) <= Bound(tpmLimit, k, most)
  {
    match trace
    case Start =>
    case Then(before, last) =>
      var s := Run(before, tpmLimit, start);
      IntervalsAreBounded(before, tpmLimit, start, k, most, lo);
      if last.Finish? && last.tokens > 0 {
        UsedAppend(s.charges, Charge(last.at, last.tokens), lo, lo + WINDOW);
        if lo <= last.at <= lo + WINDOW {
          LatestIsBounded(trace, tpmLimit, start, k, most, lo);
        }
      } else {
        assert Run(trace, tpmLimit, start).charges == s.charges;
      }
  }

  lemma {:induction false} LatestIsBounded(
      trace: Trace<TpmStep>, tpmLimit: int, start: real, k: nat, most: nat, lo: real)
    requires Legal(trace, tpmLimit, start, k, most)
    requires lo <= Run(trace, tpmLimit, start).clock <= lo + WINDOW
    ensures UsedBetween(Run(trace, tpmLimit, start).charges, lo, lo + WINDOW) <= Bound(tpmLimit, k, most)
  {
    var s := Run(trace, tpmLimit, start);
    RunPast(trace, tpmLimit, start, k, most);
    RunReserved(trace, tpmLimit, start, k, most, s.clock);
    IntervalInWindow(s.charges, s.clock, lo);
  }

  /**
   * Under every interleaving, with at most `k` requests between check and charge and at most
   * `most` tokens each, any closed 60-second interval holds at most tpmLimit - 1 + k * most tokens.
   */
  lemma TpmOvershoot(trace: Trace<TpmStep>, tpmLimit: int, start: real, k: nat, most: nat, lo: real)
    requires Legal(trace, tpmLimit, start, k, most)
    ensures UsedBetween(Run(trace, tpmLimit, start).charges, lo, lo + 60.0)
         <= (if tpmLimit >= 1 then tpmLimit - 1 else 0) + k * most
  {
    IntervalsAreBounded(trace, tpmLimit, start, k, most, lo);
    ShareIsProduct(k, most);
  }

  // ---------- the overshoot bound is attained ----------

  function Repeat(trace: Trace<TpmStep>, step: TpmStep, n: nat): Trace<TpmStep> {
    if n == 0 then trace else Then(Repeat(trace, step, n - 1), step)
  }

  lemma {:induction false} OpenMany(trace: Trace<TpmStep>, n: nat, tpmLimit: int, k: nat, most: nat)
    requires Legal(trace, tpmLimit, 0.0, k, most) && n <= k
    requires var s := Run(trace, tpmLimit, 0.0);
      s.clock == 0.0 && s.inFlight == 0 && TpmDecision(s.charges, 0.0, tpmLimit).Allowed?
    ensures var trace' := Repeat(trace, Check(0.0), n);
      && Legal(trace', tpmLimit, 0.0, k, most)
      && Run(trace', tpmLimit, 0.0) == TpmState(Run(trace, tpmLimit, 0.0).charges, n, 0.0)
  {
    if n > 0 {
      OpenMany(trace, n - 1, tpmLimit, k, most);
    }
  }

  lemma {:induction false} CloseMany(trace: Trace<TpmStep>, n: nat, tpmLimit: int, k: nat, most: nat)
    requires Legal(trace, tpmLimit, 0.0, k, most) && n <= k
    requires var s := Run(trace, tpmLimit, 0.0); s.clock == 0.0 && s.inFlight == k
    ensures var trace' := Repeat(trace, Finish(0.0, most), n);
      && Legal(trace', tpmLimit, 0.0, k, most)
      && Run(trace', tpmLimit, 0.0).clock == 0.0
      && Run(trace', tpmLimit, 0.0).inFlight == k - n
      && UsedBetween(Run(trace', tpmLimit, 0.0).charges, 0.0, WINDOW)
         == UsedBetween(Run(trace, tpmLimit, 0.0).charges, 0.0, WINDOW) + Share(n, most)
  {
    if n > 0 {
      CloseMany(trace, n - 1, tpmLimit, k, most);
      var before := Repeat(trace, Finish(0.0, most), n - 1);
      UsedAppend(Run(before, tpmLimit, 0.0).charges, Charge(0.0, most), 0.0, WINDOW);
    }
  }

  /** Nobody in flight, and `n` tokens used at time zero. */
  ghost predicate Idle(s: TpmState, n: nat) {
    && s.clock == 0.0 && s.inFlight == 0
    && Total(ChargesSince(s.charges, 0.0 - WINDOW)) == n && UsedBetween(s.charges, 0.0, WINDOW) == n
  }

  lemma {:induction false} OneTokenMore(s: TpmState, n: nat)
    requires Idle(s, n)
    ensures Idle(TpmState(s.charges + [Charge(0.0, 1)], 0, 0.0), n + 1)
  {
    var one := Charge(0.0, 1);
    ChargesSinceAppend(s.charges, one, 0.0 - WINDOW);
    TotalAppend(ChargesSince(s.charges, 0.0 - WINDOW), one);
    UsedAppend(s.charges, one, 0.0, WINDOW);
  }

  lemma {:induction false} OneStepMore(trace: Trace<TpmStep>, step: TpmStep, tpmLimit: int, k: nat, most: nat)
    requires Legal(trace, tpmLimit, 0.0, k, most) && Enabled(Run(trace, tpmLimit, 0.0), step, most)
    requires After(Run(trace, tpmLimit, 0.0), step, tpmLimit).inFlight <= k
    ensures Legal(Then(trace, step), tpmLimit, 0.0, k, most)
    ensures Run(Then(trace, step), tpmLimit, 0.0) == After(Run(trace, tpmLimit, 0.0), step, tpmLimit)
  {
  }

  /** `n` requests, one after the other, each using one token. */
  lemma {:induction false} UseOnes(n: nat, tpmLimit: int, k: nat, most: nat) returns (trace: Trace<TpmStep>)
    requires n < tpmLimit && k >= 1 && most >= 1
    ensures Legal(trace, tpmLimit, 0.0, k, most) && Idle(Run(trace, tpmLimit, 0.0), n)
  {
    trace := Start;
    if n > 0 {
      trace := UseOnes(n - 1, tpmLimit, k, most);
      var s := Run(trace, tpmLimit, 0.0);
      OneTokenMore(s, n - 1);
      assert After(s, Check(0.0), tpmLimit) == TpmState(s.charges, 1, 0.0);
      OneStepMore(trace, Check(0.0), tpmLimit, k, most);
      trace := Then(trace, Check(0.0));
      OneStepMore(trace, Finish(0.0, 1), tpmLimit, k, most);
      trace := Then(trace, Finish(0.0, 1));
    }
  }

  /** Requests use up tpmLimit - 1 tokens; then `k` are admitted together and each uses `most`. */
  lemma {:induction false} OvershootIsReached(tpmLimit: int, k: nat, most: nat) returns (trace: Trace<TpmStep>)
    requires tpmLimit >= 1 && k >= 1 && most >= 1
    ensures Legal(trace, tpmLimit, 0.0, k, most)
    ensures UsedBetween(Run(trace, tpmLimit, 0.0).charges, 0.0, 60.0) == tpmLimit - 1 + k * most
  {
    var full := UseOnes(tpmLimit - 1, tpmLimit, k, most);
    OpenMany(full, k, tpmLimit, k, most);
    var loaded := Repeat(full, Check(0.0), k);
    CloseMany(loaded, k, tpmLimit, k, most);
    ShareIsProduct(k, most);
    trace := Repeat(loaded, Finish(0.0, most), k);
  }

  /** When nobody may be in flight, or nobody may use a token, nothing is ever charged. */
  lemma {:induction false} NothingToCharge(trace: Trace<TpmStep>, tpmLimit: int, k: nat, most: nat)
    requires Legal(trace, tpmLimit, 0.0, k, most) && (k == 0 || most == 0)
    ensures Run(trace, tpmLimit, 0.0).charges == [] && (k == 0 ==> Run(trace, tpmLimit, 0.0).inFlight == 0)
  {
    match trace
    case Start =>
    case Then(before, last) => NothingToCharge(before, tpmLimit, k, most);
  }

  ghost predicate Attains(trace: Trace<TpmStep>, tpmLimit: int, k: nat, most: nat) {
    && Legal(trace, tpmLimit, 0.0, k, most)
    && UsedBetween(Run(trace, tpmLimit, 0.0).charges, 0.0, 60.0) == tpmLimit - 1 + k * most
  }

  /** The bound cannot be improved: some run attains it, unless no tokens can be charged at all. */
  lemma {:induction false} OvershootIsExact(tpmLimit: int, k: nat, most: nat)
    requires tpmLimit >= 1
    ensures (exists trace :: Attains(trace, tpmLimit, k, most)) <==> (k >= 1 && most >= 1) || tpmLimit == 1
  {
    if k >= 1 && most >= 1 {
      var trace := OvershootIsReached(tpmLimit, k, most);
      assert Attains(trace, tpmLimit, k, most);
    } else {
      assert k * most == 0;
      forall trace | Attains(trace, tpmLimit, k, most) ensures tpmLimit == 1 {
        NothingToCharge(trace, tpmLimit, k, most);
      }
      assert tpmLimit == 1 ==> Attains(Start, tpmLimit, k, most);
    }
  }
}
