/**
 * The Redis limiter's request check as the protocol it is: each call prunes, counts and
 * adds in separate round trips, and the round trips of different calls interleave freely.
 *
 * A member of the sorted set is a text built from the call's clock reading alone, and its
 * score is that reading, so the set is modelled as a list of distinct readings: two calls that
 * read the same time write the same member. Nothing is assumed about the order of the readings.
 */
module RedisLimiter {
  import opened Windows
  import opened Traces

  /** The shared sorted set, and the readings of the calls that have pruned or been let through. */
  datatype State = State(requests: seq<real>, pruned: seq<real>, admitted: seq<real>)

  /** `Count` and `Add` say which waiting call moves on. */
  datatype Step = Prune(now: real) | Count(call: nat) | Add(call: nat)

  function Remove<T>(s: seq<T>, i: nat): (r: seq<T>)
    requires i < |s|
    ensures |r| == |s| - 1
  {
    s[..i] + s[i + 1..]
  }

  /** ZREMRANGEBYSCORE key 0 cutoff: both ends are inclusive. */
  function Without(requests: seq<real>, cutoff: real): (kept: seq<real>)
    ensures |kept| <= |requests|
  {
    if requests == [] then []
    else
      var last := requests[|requests| - 1];
      Without(requests[..|requests| - 1], cutoff) + if 0.0 <= last <= cutoff then [] else [last]
  }

  /** ZADD of a member whose score is the member itself. */
  function Put(requests: seq<real>, r: real): seq<real> {
    if r in requests then requests else requests + [r]
  }

  predicate Enabled(s: State, step: Step) {
    match step
    case Prune(_) => true
    case Count(call) => call < |s.pruned|
    case Add(call) => call < |s.admitted|
  }

  function After(s: State, step: Step, rpmLimit: int): State {
    if !Enabled(s, step) then s
    else
      match step
      case Prune(now) =>
        State(Without(s.requests, now - WINDOW), s.pruned + [now], s.admitted)
      case Count(call) =>
        State(s.requests, Remove(s.pruned, call),
              if |s.requests| >= rpmLimit then s.admitted else s.admitted + [s.pruned[call]])
      case Add(call) =>
        State(Put(s.requests, s.admitted[call]), s.pruned, Remove(s.admitted, call))
  }

  function Run(trace: Trace<Step>, rpmLimit: int): State {
    match trace
    case Start => State([], [], [])
    case Then(before, last) => After(Run(before, rpmLimit), last, rpmLimit)
  }

  /** Every step was enabled, and never more than `k` calls were between their count and their add. */
  predicate Legal(trace: Trace<Step>, rpmLimit: int, k: nat) {
    match trace
    case Start => true
    case Then(before, last) =>
      && Legal(before, rpmLimit, k)
      && Enabled(Run(before, rpmLimit), last)
      && |Run(trace, rpmLimit).admitted| <= k
  }

  // ---------- what the round trips do to the set ----------

  lemma {:induction false} WithoutKeepsTheRest(requests: seq<real>, cutoff: real, x: real)
    ensures multiset(Without(requests, cutoff))[x] == if 0.0 <= x <= cutoff then 0 else multiset(requests)[x]
  {
    if requests != [] {
      var init, last := requests[..|requests| - 1], requests[|requests| - 1];
      WithoutKeepsTheRest(init, cutoff, x);
      assert requests == init + [last];
    }
  }

  /** Pruning removes exactly the readings from the epoch up to 60 seconds ago, the latter included. */
  lemma PruneRemovesTheOld(s: State, now: real, rpmLimit: int, x: real)
    ensures x in After(s, Prune(now), rpmLimit).requests <==> x in s.requests && !(0.0 <= x <= now - 60.0)
    ensures multiset(After(s, Prune(now), rpmLimit).requests)[x] <= multiset(s.requests)[x]
  {
    WithoutKeepsTheRest(s.requests, now - 60.0, x);
    assert x in multiset(s.requests) <==> x in s.requests;
    var kept := Without(s.requests, now - 60.0);
    assert x in multiset(kept) <==> x in kept;
  }

  /** A call that has pruned may count at any time; it waits to add exactly when the set is below the limit. */
  lemma CountDecides(s: State, now: real, call: nat, rpmLimit: int)
    ensures Enabled(s, Prune(now)) && After(s, Prune(now), rpmLimit).pruned == s.pruned + [now]
    ensures call < |s.admitted| ==> Enabled(s, Add(call))
    ensures call < |s.pruned| ==>
      && Enabled(s, Count(call))
      && After(s, Count(call), rpmLimit).pruned == s.pruned[..call] + s.pruned[call + 1..]
      && After(s, Count(call), rpmLimit).requests == s.requests
      && After(s, Count(call), rpmLimit).admitted ==
           if |s.requests| < rpmLimit then s.admitted + [s.pruned[call]] else s.admitted
  {
  }

  /** Adding makes a call's reading a member, and the set grows by one exactly when it was none before. */
  lemma AddEntersTheReading(s: State, call: nat, rpmLimit: int, x: real)
    requires call < |s.admitted|
    ensures var after := After(s, Add(call), rpmLimit).requests;
      && (x in after <==> x in s.requests || x == s.admitted[call])
      && |after| == |s.requests| + if s.admitted[call] in s.requests then 0 else 1
  {
    assert x == s.admitted[call] ==> x in s.requests + [s.admitted[call]];
  }

  /** The list of members is a set in every reachable state: no reading is in it twice. */
  lemma {:induction false} NoReadingTwice(trace: Trace<Step>, rpmLimit: int, x: real)
    ensures multiset(Run(trace, rpmLimit).requests)[x] <= 1
  {
    match trace
    case Start =>
    case Then(before, last) =>
      NoReadingTwice(before, rpmLimit, x);
      var s := Run(before, rpmLimit);
      match last {
        case Prune(now) => PruneRemovesTheOld(s, now, rpmLimit, x);
        case Count(_) =>
        case Add(call) => assert x in multiset(s.requests) <==> x in s.requests;
      }
  }

  // ---------- how far the limit can be exceeded ----------

  /** The set's size plus the calls about to add never exceeds rpmLimit + k - 1. */
  lemma {:induction false} SizePlusAdmitted(trace: Trace<Step>, rpmLimit: int, k: nat)
    requires rpmLimit >= 1 && k >= 1 && Legal(trace, rpmLimit, k)
    ensures |Run(trace, rpmLimit).requests| + |Run(trace, rpmLimit).admitted| <= rpmLimit + k - 1
  {
    match trace
    case Start =>
    case Then(before, last) =>
      SizePlusAdmitted(before, rpmLimit, k);
  }

  /** With at most `k` calls between count and add, the sorted set never exceeds rpmLimit + k - 1. */
  lemma RedisOvershoot(trace: Trace<Step>, rpmLimit: int, k: nat)
    requires rpmLimit >= 1 && k >= 1 && Legal(trace, rpmLimit, k)
    ensures |Run(trace, rpmLimit).requests| <= rpmLimit + k - 1
  {
    SizePlusAdmitted(trace, rpmLimit, k);
  }

  // ---------- the bound is attained ----------

  /** Ever later readings, all within the first minute. */
  function Moment(i: nat): (t: real)
    ensures 0.0 <= t < WINDOW
  {
    if i == 0 then 0.0 else (Moment(i - 1) + WINDOW) / 2.0
  }

  lemma {:induction false} MomentsIncrease(i: nat, j: nat)
    requires i < j
    ensures Moment(i) < Moment(j)
  {
    if i < j - 1 {
      MomentsIncrease(i, j - 1);
    }
  }

  function Added(n: nat): (moments: seq<real>)
    ensures |moments| == n
  {
    if n == 0 then [] else Added(n - 1) + [Moment(n - 1)]
  }

  lemma {:induction false} NotYetAdded(n: nat, later: nat)
    requires n <= later
    ensures Moment(later) !in Added(n)
  {
    if n > 0 {
      NotYetAdded(n - 1, later);
      MomentsIncrease(n - 1, later);
    }
  }

  lemma {:induction false} NothingExpires(requests: seq<real>, cutoff: real)
    requires cutoff < 0.0
    ensures Without(requests, cutoff) == requests
  {
    if requests != [] {
      NothingExpires(requests[..|requests| - 1], cutoff);
    }
  }

  function Waiting(lo: nat, hi: nat): (moments: seq<real>)
    requires lo <= hi
    ensures |moments| == hi - lo
  {
    if lo == hi then [] else Waiting(lo, hi - 1) + [Moment(hi - 1)]
  }

  lemma {:induction false} FirstWaiting(lo: nat, hi: nat)
    requires lo < hi
    ensures Waiting(lo, hi) == [Moment(lo)] + Waiting(lo + 1, hi)
  {
    if lo + 1 < hi {
      FirstWaiting(lo, hi - 1);
    }
  }

  /** `added` calls are done, and those numbered from `added` up to `entered` have counted. */
  function Filled(added: nat, entered: nat): State
    requires added <= entered
  {
    State(Added(added), [], Waiting(added, entered))
  }

  ghost predicate Reaches(trace: Trace<Step>, rpmLimit: int, k: nat, s: State) {
    Legal(trace, rpmLimit, k) && Run(trace, rpmLimit) == s
  }

  lemma {:induction false} Extend(trace: Trace<Step>, rpmLimit: int, k: nat, s: State, step: Step, after: State)
    returns (longer: Trace<Step>)
    requires Reaches(trace, rpmLimit, k, s) && Enabled(s, step)
    requires After(s, step, rpmLimit) == after && |after.admitted| <= k
    ensures Reaches(longer, rpmLimit, k, after)
  {
    longer := Then(trace, step);
  }

  lemma {:induction false} PruneState(rpmLimit: int, added: nat, entered: nat)
    requires added <= entered
    ensures Enabled(Filled(added, entered), Prune(Moment(entered)))
    ensures After(Filled(added, entered), Prune(Moment(entered)), rpmLimit)
         == State(Added(added), [Moment(entered)], Waiting(added, entered))
  {
    NothingExpires(Added(added), Moment(entered) - WINDOW);
  }

  lemma {:induction false} CountState(rpmLimit: int, added: nat, entered: nat)
    requires added <= entered && added < rpmLimit
    ensures var s := State(Added(added), [Moment(entered)], Waiting(added, entered));
      Enabled(s, Count(0)) && After(s, Count(0), rpmLimit) == Filled(added, entered + 1)
  {
    assert Remove([Moment(entered)], 0) == [];
    assert Waiting(added, entered + 1) == Waiting(added, entered) + [Moment(entered)];
  }

  /** One more call prunes nothing, counts fewer than the limit, and is let through. */
  lemma {:induction false} EnterOne(trace: Trace<Step>, s: State, rpmLimit: int, k: nat, added: nat, entered: nat)
    returns (longer: Trace<Step>, after: State)
    requires added <= entered < added + k && added < rpmLimit
    requires s == Filled(added, entered) && Reaches(trace, rpmLimit, k, s)
    ensures after == Filled(added, entered + 1) && Reaches(longer, rpmLimit, k, after)
  {
    PruneState(rpmLimit, added, entered);
    CountState(rpmLimit, added, entered);
    var pruned := State(Added(added), [Moment(entered)], Waiting(added, entered));
    after := Filled(added, entered + 1);
    longer := Extend(trace, rpmLimit, k, s, Prune(Moment(entered)), pruned);
    longer := Extend(longer, rpmLimit, k, pruned, Count(0), after);
  }

  lemma {:induction false} AddOne(trace: Trace<Step>, s: State, rpmLimit: int, k: nat, added: nat, entered: nat)
    returns (longer: Trace<Step>, after: State)
    requires added < entered <= added + k
    requires s == Filled(added, entered) && Reaches(trace, rpmLimit, k, s)
    ensures after == Filled(added + 1, entered) && Reaches(longer, rpmLimit, k, after)
  {
    FirstWaiting(added, entered);
    NotYetAdded(added, added);
    assert Remove(Waiting(added, entered), 0) == Waiting(added + 1, entered);
    after := Filled(added + 1, entered);
    longer := Extend(trace, rpmLimit, k, s, Add(0), after);
  }

  /** `n` complete calls, one after the other. */
  lemma {:induction false} Serial(n: nat, rpmLimit: int, k: nat) returns (trace: Trace<Step>, s: State)
    requires n <= rpmLimit && k >= 1
    ensures s == Filled(n, n) && Reaches(trace, rpmLimit, k, s)
  {
    if n == 0 {
      trace, s := Start, Filled(0, 0);
    } else {
      trace, s := Serial(n - 1, rpmLimit, k);
      trace, s := EnterOne(trace, s, rpmLimit, k, n - 1, n - 1);
      trace, s := AddOne(trace, s, rpmLimit, k, n - 1, n);
    }
  }

  lemma {:induction false} EnterMany(trace: Trace<Step>, s: State, rpmLimit: int, k: nat, added: nat, n: nat)
    returns (longer: Trace<Step>, after: State)
    requires added < rpmLimit && n <= k && s == Filled(added, added) && Reaches(trace, rpmLimit, k, s)
    ensures after == Filled(added, added + n) && Reaches(longer, rpmLimit, k, after)
  {
    longer, after := trace, s;
    if n > 0 {
      longer, after := EnterMany(trace, s, rpmLimit, k, added, n - 1);
      longer, after := EnterOne(longer, after, rpmLimit, k, added, added + n - 1);
    }
  }

  lemma {:induction false} AddMany(trace: Trace<Step>, s: State, rpmLimit: int, k: nat, added: nat, entered: nat, n: nat)
    returns (longer: Trace<Step>, after: State)
    requires added + n <= entered <= added + k && s == Filled(added, entered) && Reaches(trace, rpmLimit, k, s)
    ensures after == Filled(added + n, entered) && Reaches(longer, rpmLimit, k, after)
  {
    longer, after := trace, s;
    if n > 0 {
      longer, after := AddMany(trace, s, rpmLimit, k, added, entered, n - 1);
      longer, after := AddOne(longer, after, rpmLimit, k, added + n - 1, entered);
    }
  }

  /** `k` calls that all count before any of them adds fill the set to exactly rpmLimit + k - 1. */
  lemma {:induction false} RedisOvershootIsReached(rpmLimit: int, k: nat) returns (trace: Trace<Step>)
    requires rpmLimit >= 1 && k >= 1
    ensures Legal(trace, rpmLimit, k) && |Run(trace, rpmLimit).requests| == rpmLimit + k - 1
  {
    var n := rpmLimit - 1;
    var s: State;
    trace, s := Serial(n, rpmLimit, k);
    trace, s := EnterMany(trace, s, rpmLimit, k, n, k);
    trace, s := AddMany(trace, s, rpmLimit, k, n, n + k, k);
  }

  /** The limit itself is respected in every run exactly when calls never overlap between count and add. */
  lemma LimitHoldsIffSerialized(rpmLimit: int, k: nat)
    requires rpmLimit >= 1 && k >= 1
    ensures (forall trace :: Legal(trace, rpmLimit, k) ==> |Run(trace, rpmLimit).requests| <= rpmLimit)
       <==> k == 1
  {
    if k == 1 {
      forall trace | Legal(trace, rpmLimit, k) ensures |Run(trace, rpmLimit).requests| <= rpmLimit {
        RedisOvershoot(trace, rpmLimit, k);
      }
    } else {
      var trace := RedisOvershootIsReached(rpmLimit, k);
    }
  }
}
