/**
 * Walking a provider chain: which candidates a request tries, what each attempt leaves on
 * record, and what the request returns, for every behaviour of the providers and of the
 * other requests that run while a call is awaited.
 */
module RouterSpec {
  import opened Windows
  import opened CircuitBreakers
  import opened Policies
  import opened Resolutions

  datatype Response = Response(
    content: string, model: string, promptTokens: nat, completionTokens: nat, finishReason: string)

  datatype ChatResult = Answer(response: Response) | ProviderError(retryable: bool) | Unexpected

  datatype Report = Report(provider: string, outcome: Outcome)

  /** What comes back from one awaited call, when, and what other requests recorded meanwhile. */
  datatype Reply = Reply(result: ChatResult, at: real, others: seq<Report>)

  /** The reply to the n-th call a request makes. */
  type Environment = nat -> Reply

  datatype Visit = Skipped | Tried(result: ChatResult)

  /** One visit per candidate reached, this request's own reports, and the logs it leaves. */
  datatype Walked = Walked(visits: seq<Visit>, mine: seq<Report>, logs: Logs)

  function Record(logs: Logs, r: Report): Logs {
    if r.provider in logs then logs[r.provider := logs[r.provider] + [r.outcome]] else logs
  }

  function RecordAll(logs: Logs, reports: seq<Report>): Logs {
    if reports == [] then logs else RecordAll(Record(logs, reports[0]), reports[1..])
  }

  function ReportOf(c: Candidate, reply: Reply): Report {
    Report(c.provider, if reply.result.Answer? then Success else Failure(reply.at))
  }

  /** An answer ends the walk, and so does an error that the provider calls final. */
  predicate Ends(result: ChatResult) {
    result.Answer? || result == ProviderError(false)
  }

  function LogsAfterCall(logs: Logs, c: Candidate, reply: Reply): Logs {
    Record(RecordAll(logs, reply.others), ReportOf(c, reply))
  }

  function Walk(chain: seq<Candidate>, logs: Logs, cfg: Breaker, now: real, n: nat, env: Environment): Walked {
    if chain == [] then Walked([], [], logs)
    else if !Up(logs, cfg, chain[0].provider, now) then
      var rest := Walk(chain[1..], logs, cfg, now, n, env);
      rest.(visits := [Skipped] + rest.visits)
    else
      var reply := env(n);
      var after, report := LogsAfterCall(logs, chain[0], reply), ReportOf(chain[0], reply);
      if Ends(reply.result) then Walked([Tried(reply.result)], [report], after)
      else
        var rest := Walk(chain[1..], after, cfg, reply.at, n + 1, env);
        Walked([Tried(reply.result)] + rest.visits, [report] + rest.mine, rest.logs)
  }

  /** The candidates that were called, in order. */
  function Attempts(chain: seq<Candidate>, visits: seq<Visit>): seq<Candidate>
    requires |visits| <= |chain|
  {
    if visits == [] then []
    else (if visits[0].Tried? then [chain[0]] else []) + Attempts(chain[1..], visits[1..])
  }

  function Results(visits: seq<Visit>): seq<ChatResult> {
    if visits == [] then []
    else (if visits[0].Tried? then [visits[0].result] else []) + Results(visits[1..])
  }

  datatype RouteResult =
    | NoProviderAvailable
    | Routed(provider: string, response: Response, attempts: seq<Candidate>, fallbackUsed: bool)
    | AllProvidersFailed(attempts: seq<Candidate>, lastError: Option<ChatResult>)

  /** The last call decides; with no call made, the error known before stands. */
  function Verdict(attempts: seq<Candidate>, results: seq<ChatResult>, before: Option<ChatResult>): RouteResult {
    if attempts == [] || results == [] then AllProvidersFailed(attempts, before)
    else
      var last := results[|results| - 1];
      if last.Answer? then Routed(attempts[|attempts| - 1].provider, last.response, attempts, |attempts| > 1)
      else AllProvidersFailed(attempts, Some(last))
  }

  /** What a request returns, read off its walk. */
  function RouteOutcome(chain: seq<Candidate>, visits: seq<Visit>): RouteResult
    requires |visits| <= |chain|
  {
    if chain == [] then NoProviderAvailable else Verdict(Attempts(chain, visits), Results(visits), None)
  }

  // ---------- the shape of every walk ----------

  /** Only the last visit can end the walk, and a walk that stops short of the chain's end was ended. */
  lemma {:induction false} WalkShape(
      chain: seq<Candidate>, logs: Logs, cfg: Breaker, now: real, n: nat, env: Environment)
    ensures var visits := Walk(chain, logs, cfg, now, n, env).visits;
      && |visits| <= |chain|
      && (forall j :: 0 <= j < |visits| - 1 ==> visits[j].Tried? ==> !Ends(visits[j].result))
      && (|visits| < |chain| ==> visits != [] && visits[|visits| - 1].Tried? && Ends(visits[|visits| - 1].result))
  {
    if chain != [] {
      if !Up(logs, cfg, chain[0].provider, now) {
        WalkShape(chain[1..], logs, cfg, now, n, env);
      } else if !Ends(env(n).result) {
        WalkShape(chain[1..], LogsAfterCall(logs, chain[0], env(n)), cfg, env(n).at, n + 1, env);
      }
    }
  }

  function CountFor(reports: seq<Report>, provider: string): nat {
    if reports == [] then 0
    else CountFor(reports[1..], provider) + if reports[0].provider == provider then 1 else 0
  }

  /** How many reports on the provider other requests make during calls n to n + calls - 1. */
  function OthersFor(env: Environment, n: nat, calls: nat, provider: string): nat
    decreases calls
  {
    if calls == 0 then 0 else CountFor(env(n).others, provider) + OthersFor(env, n + 1, calls - 1, provider)
  }

  /** Reports are recorded one by one, each at the end of its provider's log; those of unknown providers are dropped. */
  lemma {:induction false} RecordAllAppend(logs: Logs, reports: seq<Report>, r: Report)
    ensures RecordAll(logs, []) == logs
    ensures var before := RecordAll(logs, reports);
      RecordAll(logs, reports + [r]) ==
        if r.provider in before then before[r.provider := before[r.provider] + [r.outcome]] else before
  {
    if reports == [] {
      assert reports + [r] == [r] && [r][1..] == [];
      assert RecordAll(logs, [r]) == RecordAll(Record(logs, r), []);
    } else {
      RecordAllAppend(Record(logs, reports[0]), reports[1..], r);
      assert (reports + [r])[1..] == reports[1..] + [r];
    }
  }

  lemma {:induction false} RecordAllConcat(logs: Logs, a: seq<Report>, b: seq<Report>)
    ensures RecordAll(logs, a + b) == RecordAll(RecordAll(logs, a), b)
  {
    if a == [] {
      assert a + b == b;
    } else {
      RecordAllConcat(Record(logs, a[0]), a[1..], b);
      assert (a + b)[1..] == a[1..] + b;
    }
  }

  /** In the order in which they reach the breakers: what others report during each call, then the call's own report. */
  function Recorded(env: Environment, n: nat, mine: seq<Report>): (all: seq<Report>)
    ensures mine == [] ==> all == []
    ensures mine != [] ==> all == env(n).others + [mine[0]] + Recorded(env, n + 1, mine[1..])
    decreases |mine|
  {
    if mine == [] then [] else env(n).others + [mine[0]] + Recorded(env, n + 1, mine[1..])
  }

  /** Under every interference the breakers have been told exactly this, in this order, and nothing else. */
  lemma {:induction false} WalkRecordsEverything(
      chain: seq<Candidate>, logs: Logs, cfg: Breaker, now: real, n: nat, env: Environment)
    ensures var w := Walk(chain, logs, cfg, now, n, env); w.logs == RecordAll(logs, Recorded(env, n, w.mine))
  {
    if chain != [] {
      var w := Walk(chain, logs, cfg, now, n, env);
      if !Up(logs, cfg, chain[0].provider, now) {
        WalkRecordsEverything(chain[1..], logs, cfg, now, n, env);
      } else {
        var report, after := ReportOf(chain[0], env(n)), LogsAfterCall(logs, chain[0], env(n));
        RecordAllAppend(logs, env(n).others, report);
        assert after == RecordAll(logs, env(n).others + [report]);
        RecordAllConcat(logs, env(n).others + [report], Recorded(env, n + 1, w.mine[1..]));
        if Ends(env(n).result) {
          assert w.mine == [report] && w.mine[1..] == [];
        } else {
          WalkRecordsEverything(chain[1..], after, cfg, env(n).at, n + 1, env);
          assert w.mine[1..] == Walk(chain[1..], after, cfg, env(n).at, n + 1, env).mine;
        }
      }
    }
  }

  lemma {:induction false} RecordAllGrows(logs: Logs, reports: seq<Report>, provider: string)
    requires provider in logs
    ensures provider in RecordAll(logs, reports)
    ensures |RecordAll(logs, reports)[provider]| == |logs[provider]| + CountFor(reports, provider)
  {
    if reports != [] {
      RecordAllGrows(Record(logs, reports[0]), reports[1..], provider);
    }
  }

  /** One report per attempt: on the provider called, a success for an answer and a failure for anything else. */
  predicate OneEach(reports: seq<Report>, attempts: seq<Candidate>, results: seq<ChatResult>) {
    if reports == [] then attempts == [] && results == []
    else
      && attempts != [] && results != []
      && reports[0].provider == attempts[0].provider
      && (reports[0].outcome.Success? <==> results[0].Answer?)
      && OneEach(reports[1..], attempts[1..], results[1..])
  }

  lemma {:induction false} OneReportPerAttempt(
      chain: seq<Candidate>, logs: Logs, cfg: Breaker, now: real, n: nat, env: Environment)
    ensures var w := Walk(chain, logs, cfg, now, n, env);
      && |w.visits| <= |chain|
      && OneEach(w.mine, Attempts(chain, w.visits), Results(w.visits))
  {
    WalkShape(chain, logs, cfg, now, n, env);
    if chain != [] {
      var w := Walk(chain, logs, cfg, now, n, env);
      if w.visits[0].Skipped? {
        OneReportPerAttempt(chain[1..], logs, cfg, now, n, env);
        assert w.visits[1..] == Walk(chain[1..], logs, cfg, now, n, env).visits;
        assert Attempts(chain, w.visits) == Attempts(chain[1..], w.visits[1..]);
        assert Results(w.visits) == Results(w.visits[1..]);
      } else {
        var reply, after := env(n), LogsAfterCall(logs, chain[0], env(n));
        var restVisits, restMine := [], [];
        if !Ends(reply.result) {
          OneReportPerAttempt(chain[1..], after, cfg, reply.at, n + 1, env);
          var rest := Walk(chain[1..], after, cfg, reply.at, n + 1, env);
          restVisits, restMine := rest.visits, rest.mine;
        }
        assert w.visits[1..] == restVisits && w.mine[1..] == restMine;
        FirstAttempt(chain, w.visits);
      }
    }
  }

  lemma FirstAttempt(chain: seq<Candidate>, visits: seq<Visit>)
    requires visits != [] && |visits| <= |chain| && visits[0].Tried?
    ensures Attempts(chain, visits) != [] && Attempts(chain, visits)[0] == chain[0]
    ensures Attempts(chain, visits)[1..] == Attempts(chain[1..], visits[1..])
    ensures Results(visits) != [] && Results(visits)[0] == visits[0].result
    ensures Results(visits)[1..] == Results(visits[1..])
  {
  }

  /** A provider's log grows by one entry per attempt on it, plus what other requests recorded. */
  lemma {:induction false} OutcomesAddUp(
      chain: seq<Candidate>, logs: Logs, cfg: Breaker, now: real, n: nat, env: Environment, provider: string)
    requires provider in logs
    ensures var w := Walk(chain, logs, cfg, now, n, env);
      && provider in w.logs
      && |w.logs[provider]|
         == |logs[provider]| + CountFor(w.mine, provider) + OthersFor(env, n, |w.mine|, provider)
  {
    if chain != [] {
      if !Up(logs, cfg, chain[0].provider, now) {
        OutcomesAddUp(chain[1..], logs, cfg, now, n, env, provider);
      } else {
        var w, report := Walk(chain, logs, cfg, now, n, env), ReportOf(chain[0], env(n));
        RecordAllGrows(logs, env(n).others, provider);
        KnownStaysKnown(logs, env(n).others, chain[0].provider);
        var after := LogsAfterCall(logs, chain[0], env(n));
        if Ends(env(n).result) {
          assert CountFor([report], provider) == CountFor([report][1..], provider)
            + if report.provider == provider then 1 else 0;
          assert OthersFor(env, n + 1, 0, provider) == 0;
        } else {
          OutcomesAddUp(chain[1..], after, cfg, env(n).at, n + 1, env, provider);
          assert w.mine[1..] == Walk(chain[1..], after, cfg, env(n).at, n + 1, env).mine;
        }
      }
    }
  }

  lemma {:induction false} KnownStaysKnown(logs: Logs, reports: seq<Report>, provider: string)
    ensures provider in RecordAll(logs, reports) <==> provider in logs
  {
    if reports != [] {
      KnownStaysKnown(Record(logs, reports[0]), reports[1..], provider);
    }
  }

  // ---------- walks that no other request disturbs ----------

  ghost predicate Quiet(env: Environment) {
    forall n :: env(n).others == []
  }

  /** Replies arrive in time order, the n-th not before `now`. */
  ghost predicate Timely(env: Environment, n: nat, now: real) {
    now <= env(n).at && forall m :: n <= m ==> env(m).at <= env(m + 1).at
  }

  /** Without interference the walk's own reports are all that is recorded. */
  lemma {:induction false} QuietWalkRecordsItsOwn(
      chain: seq<Candidate>, logs: Logs, cfg: Breaker, now: real, n: nat, env: Environment)
    requires Quiet(env)
    ensures var w := Walk(chain, logs, cfg, now, n, env); w.logs == RecordAll(logs, w.mine)
  {
    if chain != [] {
      if !Up(logs, cfg, chain[0].provider, now) {
        QuietWalkRecordsItsOwn(chain[1..], logs, cfg, now, n, env);
      } else {
        var w, after := Walk(chain, logs, cfg, now, n, env), LogsAfterCall(logs, chain[0], env(n));
        assert RecordAll(logs, env(n).others) == logs;
        if Ends(env(n).result) {
          assert RecordAll(after, []) == after;
        } else {
          QuietWalkRecordsItsOwn(chain[1..], after, cfg, env(n).at, n + 1, env);
          assert w.mine[1..] == Walk(chain[1..], after, cfg, env(n).at, n + 1, env).mine;
        }
      }
    }
  }

  /** An earlier candidate of the same provider was called and failed. */
  ghost predicate FailedBefore(chain: seq<Candidate>, visits: seq<Visit>, j: nat)
    requires j < |visits| <= |chain|
  {
    exists i :: 0 <= i < j && chain[i].provider == chain[j].provider && visits[i].Tried? && !visits[i].result.Answer?
  }

  /**
   * Without interference, a candidate is passed over only when its provider was down from the
   * start or failed earlier in the same request.
   */
  lemma {:induction false} SkippedForAReason(
      chain: seq<Candidate>, logs: Logs, cfg: Breaker, now: real, n: nat, env: Environment, j: nat)
    requires Quiet(env) && Timely(env, n, now)
    requires |Walk(chain, logs, cfg, now, n, env).visits| <= |chain|
    requires j < |Walk(chain, logs, cfg, now, n, env).visits|
    requires Walk(chain, logs, cfg, now, n, env).visits[j].Skipped?
    ensures !Up(logs, cfg, chain[j].provider, now)
         || FailedBefore(chain, Walk(chain, logs, cfg, now, n, env).visits, j)
  {
    var visits := Walk(chain, logs, cfg, now, n, env).visits;
    if j > 0 {
      if visits[0].Skipped? {
        WalkShape(chain[1..], logs, cfg, now, n, env);
        SkippedForAReason(chain[1..], logs, cfg, now, n, env, j - 1);
        FailedBeforeShifts(chain, visits, Walk(chain[1..], logs, cfg, now, n, env).visits, j);
      } else {
        var reply, after := env(n), LogsAfterCall(logs, chain[0], env(n));
        assert RecordAll(logs, reply.others) == logs;
        WalkShape(chain[1..], after, cfg, reply.at, n + 1, env);
        SkippedForAReason(chain[1..], after, cfg, reply.at, n + 1, env, j - 1);
        FailedBeforeShifts(chain, visits, Walk(chain[1..], after, cfg, reply.at, n + 1, env).visits, j);
        assert chain[1..][j - 1] == chain[j];
        assert !visits[0].result.Answer?;
      }
    }
  }

  lemma FailedBeforeShifts(chain: seq<Candidate>, visits: seq<Visit>, rest: seq<Visit>, j: nat)
    requires 0 < j < |visits| <= |chain| && visits == [visits[0]] + rest
    ensures FailedBefore(chain[1..], rest, j - 1) ==> FailedBefore(chain, visits, j)
  {
    if FailedBefore(chain[1..], rest, j - 1) {
      var i :| 0 <= i < j - 1 && chain[1..][i].provider == chain[1..][j - 1].provider
        && rest[i].Tried? && !rest[i].result.Answer?;
      assert visits[i + 1] == rest[i] && chain[i + 1] == chain[1..][i];
    }
  }

  lemma {:induction false} NoSkipsNoGaps(chain: seq<Candidate>, visits: seq<Visit>)
    requires |visits| <= |chain| && forall j :: 0 <= j < |visits| ==> visits[j].Tried?
    ensures Attempts(chain, visits) == chain[..|visits|]
  {
    if visits != [] {
      NoSkipsNoGaps(chain[1..], visits[1..]);
    }
  }

  /** The outcome logs and the time at the moment the walk reaches position `j`. */
  function ReachedAt(
      chain: seq<Candidate>, logs: Logs, cfg: Breaker, now: real, n: nat, env: Environment, j: nat): (Logs, real)
  {
    if j == 0 || chain == [] then (logs, now)
    else if !Up(logs, cfg, chain[0].provider, now) then ReachedAt(chain[1..], logs, cfg, now, n, env, j - 1)
    else ReachedAt(chain[1..], LogsAfterCall(logs, chain[0], env(n)), cfg, env(n).at, n + 1, env, j - 1)
  }

  /**
   * Under every interference, whoever is ahead of the candidate that ended the walk was called and
   * failed in a way that let the walk go on, or was refused by its breaker when it was reached.
   */
  lemma {:induction false} EveryoneAheadFailedOrWasDown(
      chain: seq<Candidate>, logs: Logs, cfg: Breaker, now: real, n: nat, env: Environment, j: nat)
    requires |Walk(chain, logs, cfg, now, n, env).visits| <= |chain|
    requires j < |Walk(chain, logs, cfg, now, n, env).visits|
    ensures var visits := Walk(chain, logs, cfg, now, n, env).visits;
      var (before, at) := ReachedAt(chain, logs, cfg, now, n, env, j);
      && (visits[j].Skipped? <==> !Up(before, cfg, chain[j].provider, at))
      && (j < |visits| - 1 && visits[j].Tried? ==> !visits[j].result.Answer? && visits[j].result != ProviderError(false))
  {
    var visits := Walk(chain, logs, cfg, now, n, env).visits;
    if j > 0 {
      if visits[0].Skipped? {
        WalkShape(chain[1..], logs, cfg, now, n, env);
        EveryoneAheadFailedOrWasDown(chain[1..], logs, cfg, now, n, env, j - 1);
        assert visits[1..] == Walk(chain[1..], logs, cfg, now, n, env).visits;
      } else {
        var after := LogsAfterCall(logs, chain[0], env(n));
        WalkShape(chain[1..], after, cfg, env(n).at, n + 1, env);
        EveryoneAheadFailedOrWasDown(chain[1..], after, cfg, env(n).at, n + 1, env, j - 1);
        assert visits[1..] == Walk(chain[1..], after, cfg, env(n).at, n + 1, env).visits;
      }
      assert visits[j] == visits[1..][j - 1] && chain[j] == chain[1..][j - 1];
    }
  }

  /** No candidate is passed over before one that is called. */
  ghost predicate NoGaps(visits: seq<Visit>) {
    forall i, j :: 0 <= i < j < |visits| && visits[j].Tried? ==> visits[i].Tried?
  }

  lemma {:induction false} GapsShift(visits: seq<Visit>)
    requires visits != []
    ensures visits[0].Tried? ==> (NoGaps(visits) <==> NoGaps(visits[1..]))
    ensures visits[0].Skipped? ==> (NoGaps(visits) <==> Results(visits[1..]) == [])
  {
    TriedIffResult(visits[1..]);
    forall i | 0 <= i < |visits| - 1 ensures visits[1..][i] == visits[i + 1] {
    }
    if NoGaps(visits) {
      forall i, j | 0 <= i < j < |visits| - 1 && visits[1..][j].Tried? ensures visits[1..][i].Tried? {
        assert visits[j + 1].Tried?;
      }
    }
    if visits[0].Tried? && NoGaps(visits[1..]) {
      forall i, j | 0 <= i < j < |visits| && visits[j].Tried? ensures visits[i].Tried? {
        assert i > 0 ==> visits[1..][j - 1].Tried? && visits[1..][i - 1] == visits[i];
      }
    }
    if visits[0].Skipped? && Results(visits[1..]) == [] {
      forall j | 0 < j < |visits| ensures !visits[j].Tried? {
        assert visits[1..][j - 1] == visits[j];
      }
    }
  }

  lemma {:induction false} TriedIffResult(visits: seq<Visit>)
    ensures Results(visits) == [] <==> forall j :: 0 <= j < |visits| ==> visits[j].Skipped?
  {
    if visits != [] {
      TriedIffResult(visits[1..]);
      assert forall j :: 0 < j < |visits| ==> visits[j] == visits[1..][j - 1];
    }
  }

  /**
   * Under every interference: on a chain without repeats the attempts are a prefix of it exactly when no
   * candidate was passed over before one that was called.
   */
  lemma {:induction false} PrefixIffNoGaps(chain: seq<Candidate>, visits: seq<Visit>)
    requires |visits| <= |chain|
    requires forall i, j :: 0 <= i < j < |chain| ==> chain[i] != chain[j]
    ensures Attempts(chain, visits) <= chain <==> NoGaps(visits)
  {
    if visits != [] {
      var rest, attempts := visits[1..], Attempts(chain[1..], visits[1..]);
      PrefixIffNoGaps(chain[1..], rest);
      GapsShift(visits);
      SameCount(chain[1..], rest);
      if visits[0].Tried? {
        assert Attempts(chain, visits) == [chain[0]] + attempts;
        PrefixCons(chain, attempts);
      } else if attempts != [] {
        FirstIsLater(chain, rest);
      }
    }
  }

  lemma {:induction false} PrefixCons(chain: seq<Candidate>, attempts: seq<Candidate>)
    requires chain != []
    ensures [chain[0]] + attempts <= chain <==> attempts <= chain[1..]
  {
    var longer := [chain[0]] + attempts;
    assert longer[1..] == attempts && chain == [chain[0]] + chain[1..];
    assert longer <= chain ==> longer[1..] <= chain[1..];
  }

  /** The first attempt after a skipped head is somebody else. */
  lemma {:induction false} FirstIsLater(chain: seq<Candidate>, rest: seq<Visit>)
    requires chain != [] && |rest| < |chain| && Attempts(chain[1..], rest) != []
    ensures Attempts(chain[1..], rest)[0] in chain[1..]
  {
    AttemptsAreMembers(chain[1..], rest);
  }

  lemma {:induction false} AttemptsAreMembers(chain: seq<Candidate>, visits: seq<Visit>)
    requires |visits| <= |chain|
    ensures forall c :: c in Attempts(chain, visits) ==> c in chain
  {
    if visits != [] {
      AttemptsAreMembers(chain[1..], visits[1..]);
    }
  }

  /** With one candidate per provider, all up and undisturbed, the attempts are a prefix of the chain. */
  lemma AttemptsAreAPrefix(chain: seq<Candidate>, logs: Logs, cfg: Breaker, now: real, start: real, env: Environment)
    requires Quiet(env) && Timely(env, 0, start) && now <= start
    requires AllUp(chain, logs, cfg, now) && DistinctProviders(chain)
    ensures var visits := Walk(chain, logs, cfg, start, 0, env).visits;
      |visits| <= |chain| && Attempts(chain, visits) == chain[..|visits|]
  {
    var visits := Walk(chain, logs, cfg, start, 0, env).visits;
    WalkShape(chain, logs, cfg, start, 0, env);
    forall j | 0 <= j < |visits| ensures visits[j].Tried? {
      assert chain[j] in chain;
      if visits[j].Skipped? {
        SkippedForAReason(chain, logs, cfg, start, 0, env, j);
      }
    }
    NoSkipsNoGaps(chain, visits);
  }

  // ---------- the attempt loop and the walk ----------

  /** What is left to do for a request that has made these attempts: its result and the logs it leaves. */
  function Finish(
      chain: seq<Candidate>, logs: Logs, cfg: Breaker, now: real,
      attempts: seq<Candidate>, lastError: Option<ChatResult>, env: Environment): (RouteResult, Logs)
  {
    if chain == [] then (AllProvidersFailed(attempts, lastError), logs)
    else if !Up(logs, cfg, chain[0].provider, now) then
      Finish(chain[1..], logs, cfg, now, attempts, lastError, env)
    else
      var reply, attempts' := env(|attempts|), attempts + [chain[0]];
      var after := LogsAfterCall(logs, chain[0], reply);
      match reply.result
      case Answer(response) => (Routed(chain[0].provider, response, attempts', |attempts'| > 1), after)
      case ProviderError(false) => (AllProvidersFailed(attempts', Some(reply.result)), after)
      case _ => Finish(chain[1..], after, cfg, reply.at, attempts', Some(reply.result), env)
  }

  /** Finishing the request gives the verdict of walking the rest of its chain. */
  ghost predicate WalksOn(
      chain: seq<Candidate>, logs: Logs, cfg: Breaker, now: real,
      attempts: seq<Candidate>, lastError: Option<ChatResult>, env: Environment)
  {
    var w := Walk(chain, logs, cfg, now, |attempts|, env);
    && |w.visits| <= |chain|
    && Finish(chain, logs, cfg, now, attempts, lastError, env)
       == (Verdict(attempts + Attempts(chain, w.visits), Results(w.visits), lastError), w.logs)
  }

  lemma {:induction false} SkipWalksOn(
      chain: seq<Candidate>, logs: Logs, cfg: Breaker, now: real,
      attempts: seq<Candidate>, lastError: Option<ChatResult>, env: Environment)
    requires chain != [] && !Up(logs, cfg, chain[0].provider, now)
    requires WalksOn(chain[1..], logs, cfg, now, attempts, lastError, env)
    ensures WalksOn(chain, logs, cfg, now, attempts, lastError, env)
  {
    var rest := Walk(chain[1..], logs, cfg, now, |attempts|, env).visits;
    NoAttempt(chain, [Skipped] + rest, rest);
  }

  lemma {:induction false} EndWalksOn(
      chain: seq<Candidate>, logs: Logs, cfg: Breaker, now: real,
      attempts: seq<Candidate>, lastError: Option<ChatResult>, env: Environment)
    requires chain != [] && Up(logs, cfg, chain[0].provider, now) && Ends(env(|attempts|).result)
    ensures WalksOn(chain, logs, cfg, now, attempts, lastError, env)
  {
    OneAttempt(chain, [Tried(env(|attempts|).result)], [], attempts, env(|attempts|).result, lastError);
  }

  lemma {:induction false} FailureWalksOn(
      chain: seq<Candidate>, logs: Logs, cfg: Breaker, now: real,
      attempts: seq<Candidate>, lastError: Option<ChatResult>, env: Environment)
    requires chain != [] && Up(logs, cfg, chain[0].provider, now) && !Ends(env(|attempts|).result)
    requires var reply := env(|attempts|);
      WalksOn(chain[1..], LogsAfterCall(logs, chain[0], reply), cfg, reply.at, attempts + [chain[0]],
              Some(reply.result), env)
    ensures WalksOn(chain, logs, cfg, now, attempts, lastError, env)
  {
    var reply, attempts' := env(|attempts|), attempts + [chain[0]];
    var rest := Walk(chain[1..], LogsAfterCall(logs, chain[0], reply), cfg, reply.at, |attempts'|, env).visits;
    assert |attempts'| == |attempts| + 1;
    OneAttempt(chain, [Tried(reply.result)] + rest, rest, attempts, reply.result, lastError);
  }

  /** Finishing a request is walking the rest of its chain. */
  lemma {:induction false} FinishIsWalk(
      chain: seq<Candidate>, logs: Logs, cfg: Breaker, now: real,
      attempts: seq<Candidate>, lastError: Option<ChatResult>, env: Environment)
    ensures WalksOn(chain, logs, cfg, now, attempts, lastError, env)
    decreases |chain|
  {
    if chain == [] {
      assert attempts + [] == attempts;
    } else if !Up(logs, cfg, chain[0].provider, now) {
      FinishIsWalk(chain[1..], logs, cfg, now, attempts, lastError, env);
      SkipWalksOn(chain, logs, cfg, now, attempts, lastError, env);
    } else if Ends(env(|attempts|).result) {
      EndWalksOn(chain, logs, cfg, now, attempts, lastError, env);
    } else {
      var reply := env(|attempts|);
      FinishIsWalk(chain[1..], LogsAfterCall(logs, chain[0], reply), cfg, reply.at, attempts + [chain[0]],
                   Some(reply.result), env);
      FailureWalksOn(chain, logs, cfg, now, attempts, lastError, env);
    }
  }

  lemma NoAttempt(chain: seq<Candidate>, visits: seq<Visit>, rest: seq<Visit>)
    requires chain != [] && visits == [Skipped] + rest && |visits| <= |chain|
    ensures Attempts(chain, visits) == Attempts(chain[1..], rest) && Results(visits) == Results(rest)
  {
    assert visits[1..] == rest;
  }

  lemma OneAttempt(
      chain: seq<Candidate>, visits: seq<Visit>, rest: seq<Visit>,
      attempts: seq<Candidate>, result: ChatResult, lastError: Option<ChatResult>)
    requires chain != [] && visits == [Tried(result)] + rest && |visits| <= |chain|
    ensures rest == [] || !Ends(result) ==>
      Verdict(attempts + Attempts(chain, visits), Results(visits), lastError)
      == if Ends(result) then Verdict(attempts + [chain[0]], [result], lastError)
         else Verdict(attempts + [chain[0]] + Attempts(chain[1..], rest), Results(rest), Some(result))
  {
    assert visits[1..] == rest;
    FirstAttempt(chain, visits);
    assert Attempts(chain, visits) == [chain[0]] + Attempts(chain[1..], rest);
    assert attempts + Attempts(chain, visits) == attempts + [chain[0]] + Attempts(chain[1..], rest);
    assert Results(visits) == [result] + Results(rest);
    assert rest == [] ==> Attempts(chain[1..], rest) == [] && Results(rest) == [];
  }

  // ---------- what a request is promised ----------

  /** `a` is what is left of `b` after dropping some of its entries. */
  predicate Subsequence(a: seq<Candidate>, b: seq<Candidate>) {
    a == [] || (b != [] && ((a[0] == b[0] && Subsequence(a[1..], b[1..])) || Subsequence(a, b[1..])))
  }

  lemma {:induction false} AttemptsAreASubsequence(chain: seq<Candidate>, visits: seq<Visit>)
    requires |visits| <= |chain|
    ensures Subsequence(Attempts(chain, visits), chain)
  {
    if visits != [] {
      AttemptsAreASubsequence(chain[1..], visits[1..]);
      if visits[0].Tried? {
        FirstAttempt(chain, visits);
      } else {
        assert Attempts(chain, visits) == Attempts(chain[1..], visits[1..]);
      }
    }
  }

  lemma {:induction false} EveryResultIsVisited(visits: seq<Visit>)
    requires forall j :: 0 <= j < |visits| - 1 ==> visits[j].Tried? ==> !Ends(visits[j].result)
    ensures var results := Results(visits);
      && (forall i :: 0 <= i < |results| - 1 ==> !Ends(results[i]))
      && (visits != [] && visits[|visits| - 1].Tried? ==>
           results != [] && results[|results| - 1] == visits[|visits| - 1].result)
  {
    if visits != [] {
      EveryResultIsVisited(visits[1..]);
      assert Results(visits)
          == (if visits[0].Tried? then [visits[0].result] else []) + Results(visits[1..]);
      if |visits| > 1 {
        assert visits[1..][|visits| - 2] == visits[|visits| - 1];
      }
    }
  }

  /** The results and the reports are those of the calls made, from the n-th on. */
  ghost predicate Replied(
      attempts: seq<Candidate>, results: seq<ChatResult>, mine: seq<Report>, n: nat, env: Environment)
  {
    && |mine| == |attempts| == |results|
    && (forall i :: 0 <= i < |results| ==> results[i] == env(n + i).result)
    && (forall i :: 0 <= i < |results| ==>
         mine[i] == Report(attempts[i].provider, if results[i].Answer? then Success else Failure(env(n + i).at)))
  }

  lemma {:induction false} FirstCallOfMany(chain: seq<Candidate>, visits: seq<Visit>, rest: seq<Visit>, mine: seq<Report>,
      restMine: seq<Report>, n: nat, env: Environment)
    requires chain != [] && visits == [Tried(env(n).result)] + rest && |visits| <= |chain|
    requires mine == [ReportOf(chain[0], env(n))] + restMine
    requires Replied(Attempts(chain[1..], rest), Results(rest), restMine, n + 1, env)
    ensures Replied(Attempts(chain, visits), Results(visits), mine, n, env)
  {
    assert visits[1..] == rest;
    FirstAttempt(chain, visits);
    var attempts, results := Attempts(chain, visits), Results(visits);
    assert attempts == [chain[0]] + Attempts(chain[1..], rest) && results == [env(n).result] + Results(rest);
    forall i | 0 <= i < |results|
      ensures results[i] == env(n + i).result
      ensures mine[i] == Report(attempts[i].provider, if results[i].Answer? then Success else Failure(env(n + i).at))
    {
      if i > 0 {
        assert results[i] == Results(rest)[i - 1] && mine[i] == restMine[i - 1];
        assert n + i == n + 1 + (i - 1);
      }
    }
  }

  lemma {:induction false} CallsAreReplied(
      chain: seq<Candidate>, logs: Logs, cfg: Breaker, now: real, n: nat, env: Environment)
    requires |Walk(chain, logs, cfg, now, n, env).visits| <= |chain|
    ensures var w := Walk(chain, logs, cfg, now, n, env);
      Replied(Attempts(chain, w.visits), Results(w.visits), w.mine, n, env)
  {
    if chain != [] {
      var w := Walk(chain, logs, cfg, now, n, env);
      if w.visits[0].Skipped? {
        var rest := Walk(chain[1..], logs, cfg, now, n, env);
        CallsAreReplied(chain[1..], logs, cfg, now, n, env);
        NoAttempt(chain, w.visits, rest.visits);
      } else if Ends(env(n).result) {
        FirstCallOfMany(chain, w.visits, [], w.mine, [], n, env);
      } else {
        var after := LogsAfterCall(logs, chain[0], env(n));
        var rest := Walk(chain[1..], after, cfg, env(n).at, n + 1, env);
        CallsAreReplied(chain[1..], after, cfg, env(n).at, n + 1, env);
        FirstCallOfMany(chain, w.visits, rest.visits, w.mine, rest.mine, n, env);
      }
    }
  }

  /** The i-th call made gets the i-th reply, and records its own outcome, at its own time, on the provider called. */
  lemma CallsGetTheirReplies(chain: seq<Candidate>, logs: Logs, cfg: Breaker, now: real, n: nat, env: Environment)
    ensures var w := Walk(chain, logs, cfg, now, n, env);
      && |w.visits| <= |chain|
      && var attempts, results := Attempts(chain, w.visits), Results(w.visits);
      && |w.mine| == |attempts| == |results|
      && (forall i :: 0 <= i < |results| ==> results[i] == env(n + i).result)
      && (forall i :: 0 <= i < |results| ==>
           w.mine[i] == Report(attempts[i].provider, if results[i].Answer? then Success else Failure(env(n + i).at)))
  {
    WalkShape(chain, logs, cfg, now, n, env);
    CallsAreReplied(chain, logs, cfg, now, n, env);
  }

  lemma WalkDecides(chain: seq<Candidate>, logs: Logs, cfg: Breaker, start: real, env: Environment)
    requires chain != [] ==> Up(logs, cfg, chain[0].provider, start)
    ensures var visits := Walk(chain, logs, cfg, start, 0, env).visits;
      && |visits| <= |chain|
      && var attempts, results := Attempts(chain, visits), Results(visits);
      && |attempts| == |results|
      && (forall i :: 0 <= i < |results| ==> results[i] == env(i).result)
      && (chain != [] ==>
           && |results| >= 1
           && attempts[0] == chain[0]
           && Subsequence(attempts, chain)
           && (forall i :: 0 <= i < |results| - 1 ==> !Ends(results[i]))
           && (!Ends(results[|results| - 1]) ==> |visits| == |chain|))
  {
    var visits := Walk(chain, logs, cfg, start, 0, env).visits;
    WalkShape(chain, logs, cfg, start, 0, env);
    CallsAreReplied(chain, logs, cfg, start, 0, env);
    if chain != [] {
      assert visits != [] && visits[0].Tried?;
      FirstAttempt(chain, visits);
      AttemptsAreASubsequence(chain, visits);
      EveryResultIsVisited(visits);
    }
  }

  /**
   * For every policy, every behaviour of the providers and every interference while calls are
   * awaited: a request with a chain tries its head first, so some error is always on record;
   * every attempt but the last failed in a way that lets the walk go on; a served request's last
   * attempt is the one that answered; and an unserved one either met a final error or reached the
   * end of its chain.
   */
  lemma RouteGuarantees(
      providers: seq<Provider>, logs: Logs, cfg: Breaker, model: string, fallback: bool,
      resolved: real, start: real, env: Environment)
    requires DistinctNames(providers) && resolved <= start
    ensures var chain := ResolveChain(providers, logs, cfg, model, fallback, resolved);
      var visits := Walk(chain, logs, cfg, start, 0, env).visits;
      && |visits| <= |chain|
      && var attempts, results := Attempts(chain, visits), Results(visits);
      && (chain == [] <==> RouteOutcome(chain, visits).NoProviderAvailable?)
      && (chain != [] ==>
           && |attempts| == |results| >= 1
           && attempts[0] == chain[0]
           && Subsequence(attempts, chain)
           && (forall i :: 0 <= i < |results| ==> results[i] == env(i).result)
           && (forall i :: 0 <= i < |results| - 1 ==> results[i] == ProviderError(true) || results[i] == Unexpected)
           && (results[|results| - 1] == ProviderError(true) || results[|results| - 1] == Unexpected ==> |visits| == |chain|)
           && RouteOutcome(chain, visits) ==
              match results[|results| - 1] {
                case Answer(response) => Routed(attempts[|attempts| - 1].provider, response, attempts, |attempts| > 1)
                case _ => AllProvidersFailed(attempts, Some(results[|results| - 1]))
              })
  {
    var chain := ResolveChain(providers, logs, cfg, model, fallback, resolved);
    if chain != [] {
      FullChainIsUp(providers, logs, cfg, model, resolved);
      assert chain[0] in FullChain(providers, logs, cfg, model, resolved);
    }
    WalkDecides(chain, logs, cfg, start, env);
  }

  lemma {:induction false} SameCount(chain: seq<Candidate>, visits: seq<Visit>)
    requires |visits| <= |chain|
    ensures |Attempts(chain, visits)| == |Results(visits)|
  {
    if visits != [] {
      SameCount(chain[1..], visits[1..]);
    }
  }

  /** Undisturbed requests for a concrete model or "auto" call their chain in order, without gaps. */
  lemma ConcreteAndAutoGoInOrder(
      providers: seq<Provider>, logs: Logs, cfg: Breaker, model: string, fallback: bool,
      resolved: real, start: real, env: Environment)
    requires DistinctNames(providers) && resolved <= start
    requires Quiet(env) && Timely(env, 0, start)
    requires model !in ALIASES || model == "auto"
    ensures var chain := ResolveChain(providers, logs, cfg, model, fallback, resolved);
      var visits := Walk(chain, logs, cfg, start, 0, env).visits;
      |visits| <= |chain| && Attempts(chain, visits) == chain[..|visits|]
  {
    if model == "auto" {
      AutoChainIsExact(providers, logs, cfg, resolved);
    } else {
      ConcreteChainIsExact(providers, logs, cfg, model, resolved);
    }
    var chain := ResolveChain(providers, logs, cfg, model, fallback, resolved);
    assert forall c :: c in chain ==> c in FullChain(providers, logs, cfg, model, resolved);
    AttemptsAreAPrefix(chain, logs, cfg, resolved, start, env);
  }

  /** The candidate was called and failed in a way that let the walk go on, or its breaker refused it when reached. */
  ghost predicate PassedOver(
      chain: seq<Candidate>, logs: Logs, cfg: Breaker, start: real, env: Environment, j: nat)
  {
    var visits := Walk(chain, logs, cfg, start, 0, env).visits;
    var (before, at) := ReachedAt(chain, logs, cfg, start, 0, env, j);
    && j < |visits| <= |chain|
    && (visits[j].Tried? ==> !Ends(visits[j].result))
    && (visits[j].Skipped? ==> !Up(before, cfg, chain[j].provider, at))
    && (visits[j].Skipped? && Quiet(env) && Timely(env, 0, start) ==> FailedBefore(chain, visits, j))
  }

  lemma {:induction false} AheadIsPassedOver(
      chain: seq<Candidate>, logs: Logs, cfg: Breaker, resolved: real, start: real, env: Environment, j: nat)
    requires AllUp(chain, logs, cfg, resolved) && resolved <= start
    requires j < |Walk(chain, logs, cfg, start, 0, env).visits| - 1
    ensures PassedOver(chain, logs, cfg, start, env, j)
  {
    WalkShape(chain, logs, cfg, start, 0, env);
    EveryoneAheadFailedOrWasDown(chain, logs, cfg, start, 0, env, j);
    var visits := Walk(chain, logs, cfg, start, 0, env).visits;
    if visits[j].Skipped? && Quiet(env) && Timely(env, 0, start) {
      assert chain[j] in chain;
      SkippedForAReason(chain, logs, cfg, start, 0, env, j);
    }
  }

  lemma {:induction false} TriedIsAttempted(chain: seq<Candidate>, visits: seq<Visit>, j: nat)
    requires j < |visits| <= |chain| && visits[j].Tried?
    ensures chain[j] in Attempts(chain, visits)
  {
    if j > 0 {
      TriedIsAttempted(chain[1..], visits[1..], j - 1);
    }
  }

  /** When the walk reached this candidate, its breaker refused it. */
  ghost predicate RefusedWhenReached(
      chain: seq<Candidate>, logs: Logs, cfg: Breaker, start: real, env: Environment, c: Candidate)
  {
    exists j: nat :: j < |chain| && chain[j] == c &&
      var (before, at) := ReachedAt(chain, logs, cfg, start, 0, env, j); !Up(before, cfg, c.provider, at)
  }

  /** The request ended in failure, and not because some provider called the error final. */
  ghost predicate RanOut(result: RouteResult) {
    result.AllProvidersFailed? && result.lastError != Some(ProviderError(false))
  }

  lemma EveryCandidateHadItsTurn(
      chain: seq<Candidate>, logs: Logs, cfg: Breaker, resolved: real, start: real, env: Environment, c: Candidate)
    requires AllUp(chain, logs, cfg, resolved) && resolved <= start && c in chain
    ensures var visits := Walk(chain, logs, cfg, start, 0, env).visits;
      && |visits| <= |chain|
      && (RanOut(RouteOutcome(chain, visits)) ==>
           && (c in RouteOutcome(chain, visits).attempts || RefusedWhenReached(chain, logs, cfg, start, env, c))
           && (Quiet(env) && Timely(env, 0, start) && DistinctProviders(chain) ==>
                c in RouteOutcome(chain, visits).attempts))
  {
    var visits := Walk(chain, logs, cfg, start, 0, env).visits;
    WalkShape(chain, logs, cfg, start, 0, env);
    EveryResultIsVisited(visits);
    SameCount(chain, visits);
    if RanOut(RouteOutcome(chain, visits)) {
      RanOutMeansAllVisited(chain, visits);
      var j :| 0 <= j < |chain| && chain[j] == c;
      EveryoneAheadFailedOrWasDown(chain, logs, cfg, start, 0, env, j);
      if visits[j].Tried? {
        TriedIsAttempted(chain, visits, j);
      } else if Quiet(env) && Timely(env, 0, start) {
        SkippedForAReason(chain, logs, cfg, start, 0, env, j);
      }
    }
  }

  /** Only a walk that reached the end of its chain runs out. */
  lemma RanOutMeansAllVisited(chain: seq<Candidate>, visits: seq<Visit>)
    requires |visits| <= |chain| && RanOut(RouteOutcome(chain, visits))
    requires forall j :: 0 <= j < |visits| - 1 ==> visits[j].Tried? ==> !Ends(visits[j].result)
    requires |visits| < |chain| ==> visits != [] && visits[|visits| - 1].Tried? && Ends(visits[|visits| - 1].result)
    ensures |visits| == |chain|
  {
    EveryResultIsVisited(visits);
    SameCount(chain, visits);
    if |visits| < |chain| {
      assert false;
    }
  }

  /**
   * With fallback, a request for a concrete model that ran out of candidates has called every provider
   * that serves the model and was up when it was resolved, or was refused by its breaker when it got
   * there; undisturbed it has called all of them.
   */
  lemma EveryServerHadItsTurn(
      providers: seq<Provider>, logs: Logs, cfg: Breaker, model: string,
      resolved: real, start: real, env: Environment, p: Provider)
    requires DistinctNames(providers) && resolved <= start && model !in {"auto", "cheapest", "fastest"}
    requires p in providers && p.supports(model) && Up(logs, cfg, p.name, resolved)
    ensures var chain := ResolveChain(providers, logs, cfg, model, true, resolved);
      var visits := Walk(chain, logs, cfg, start, 0, env).visits;
      && |visits| <= |chain|
      && var result := RouteOutcome(chain, visits);
      && !result.NoProviderAvailable?
      && (result.AllProvidersFailed? && result.lastError != Some(ProviderError(false)) ==>
           && (|| Candidate(p.name, model) in result.attempts
               || RefusedWhenReached(chain, logs, cfg, start, env, Candidate(p.name, model)))
           && (Quiet(env) && Timely(env, 0, start) ==> Candidate(p.name, model) in result.attempts))
  {
    ServerIsInChain(providers, logs, cfg, model, resolved, p);
    ConcreteChainIsExact(providers, logs, cfg, model, resolved);
    var chain := ResolveChain(providers, logs, cfg, model, true, resolved);
    EveryCandidateHadItsTurn(chain, logs, cfg, resolved, start, env, Candidate(p.name, model));
  }

  /** Who is told that nobody serves the model, and who is left when a request has run out of candidates. */
  lemma UnservedMeansNobodyIsLeft(
      providers: seq<Provider>, logs: Logs, cfg: Breaker, model: string, fallback: bool,
      resolved: real, start: real, env: Environment)
    requires DistinctNames(providers) && resolved <= start && model !in {"auto", "cheapest", "fastest"}
    ensures var chain := ResolveChain(providers, logs, cfg, model, fallback, resolved);
      var visits := Walk(chain, logs, cfg, start, 0, env).visits;
      && |visits| <= |chain|
      && var result := RouteOutcome(chain, visits);
      && (result.NoProviderAvailable? <==>
           forall p :: p in providers && p.supports(model) ==> !Up(logs, cfg, p.name, resolved))
      && (fallback && RanOut(result) ==>
           forall p :: p in providers && p.supports(model) && Up(logs, cfg, p.name, resolved) ==>
             || Candidate(p.name, model) in result.attempts
             || RefusedWhenReached(chain, logs, cfg, start, env, Candidate(p.name, model)))
  {
    var chain := ResolveChain(providers, logs, cfg, model, fallback, resolved);
    WalkShape(chain, logs, cfg, start, 0, env);
    EmptyIffNobodyServes(providers, logs, cfg, model, fallback, resolved);
    forall p | fallback && p in providers && p.supports(model) && Up(logs, cfg, p.name, resolved)
      ensures var result := RouteOutcome(chain, Walk(chain, logs, cfg, start, 0, env).visits);
        RanOut(result) ==>
        || Candidate(p.name, model) in result.attempts
        || RefusedWhenReached(chain, logs, cfg, start, env, Candidate(p.name, model))
    {
      EveryServerHadItsTurn(providers, logs, cfg, model, resolved, start, env, p);
    }
  }

  lemma EmptyIffNobodyServes(
      providers: seq<Provider>, logs: Logs, cfg: Breaker, model: string, fallback: bool, now: real)
    requires DistinctNames(providers) && model !in {"auto", "cheapest", "fastest"}
    ensures ResolveChain(providers, logs, cfg, model, fallback, now) == []
       <==> forall p :: p in providers && p.supports(model) ==> !Up(logs, cfg, p.name, now)
  {
    var full := ConcreteChain(providers, logs, cfg, model, now);
    if full != [] {
      MemberIsServer(providers, logs, cfg, model, now, full[0]);
    }
    forall p | p in providers && p.supports(model) && Up(logs, cfg, p.name, now) ensures full != [] {
      ServerIsInChain(providers, logs, cfg, model, now, p);
    }
  }

  /** The same for "auto" and every provider that has a default. */
  lemma EveryDefaultHadItsTurn(
      providers: seq<Provider>, logs: Logs, cfg: Breaker,
      resolved: real, start: real, env: Environment, p: Provider)
    requires DistinctNames(providers) && resolved <= start
    requires p in providers && DefaultOf(p).Some? && Up(logs, cfg, p.name, resolved)
    ensures var chain := ResolveChain(providers, logs, cfg, "auto", true, resolved);
      var visits := Walk(chain, logs, cfg, start, 0, env).visits;
      && |visits| <= |chain|
      && var result, c := RouteOutcome(chain, visits), Candidate(p.name, DefaultOf(p).value);
      && !result.NoProviderAvailable?
      && (result.AllProvidersFailed? && result.lastError != Some(ProviderError(false)) ==>
           && (c in result.attempts || RefusedWhenReached(chain, logs, cfg, start, env, c))
           && (Quiet(env) && Timely(env, 0, start) ==> c in result.attempts))
  {
    AutoChainIsExact(providers, logs, cfg, resolved);
    var chain, c := ResolveChain(providers, logs, cfg, "auto", true, resolved), Candidate(p.name, DefaultOf(p).value);
    assert DefaultOf(p) == Some(c.model);
    EveryCandidateHadItsTurn(chain, logs, cfg, resolved, start, env, c);
  }

  /** The same for "cheapest" and "fastest" and every priced model, as long as it stands in the chain. */
  lemma EveryOfferHadItsTurn(
      providers: seq<Provider>, logs: Logs, cfg: Breaker, model: string,
      resolved: real, start: real, env: Environment, c: Candidate, price: nat)
    requires DistinctNames(providers) && resolved <= start && (model == "cheapest" || model == "fastest")
    requires OffersAt(providers, logs, cfg, resolved, c, price)
    ensures var chain := ResolveChain(providers, logs, cfg, model, true, resolved);
      var visits := Walk(chain, logs, cfg, start, 0, env).visits;
      && |visits| <= |chain|
      && var result := RouteOutcome(chain, visits);
      && !result.NoProviderAvailable?
      && (result.AllProvidersFailed? && result.lastError != Some(ProviderError(false)) ==>
           c in result.attempts || RefusedWhenReached(chain, logs, cfg, start, env, c))
  {
    var chain, _ := CheapestResolution(providers, logs, cfg, model, true, resolved);
    FullChainIsUp(providers, logs, cfg, model, resolved);
    EveryCandidateHadItsTurn(chain, logs, cfg, resolved, start, env, c);
  }

  lemma EarlierInChain(
      providers: seq<Provider>, logs: Logs, cfg: Breaker, model: string, now: real, s: nat, a: nat, b: nat)
    returns (j: nat)
    requires DistinctNames(providers) && a < b < |providers|
    requires s < |ConcreteChain(providers, logs, cfg, model, now)|
    requires providers[b].name == ConcreteChain(providers, logs, cfg, model, now)[s].provider
    requires providers[a].supports(model) && Up(logs, cfg, providers[a].name, now)
    ensures j < s && ConcreteChain(providers, logs, cfg, model, now)[j] == Candidate(providers[a].name, model)
  {
    var full, c := ConcreteChain(providers, logs, cfg, model, now), Candidate(providers[a].name, model);
    ServerIsInChain(providers, logs, cfg, model, now, providers[a]);
    j :| j < |full| && full[j] == c;
    ConcreteChainInOrder(providers, logs, cfg, model, now);
    EarlierStandsAhead(full, providers, j, s, a, b);
  }

  /**
   * Registration order end to end: when a request for a concrete model is served, every provider that was
   * registered earlier, serves the model and was up, was called and failed, or refused by its
   * breaker when reached. Without fallback there is none.
   */
  lemma EarlierServersWerePassedOver(
      providers: seq<Provider>, logs: Logs, cfg: Breaker, model: string, fallback: bool,
      resolved: real, start: real, env: Environment, s: nat, a: nat, b: nat)
    requires DistinctNames(providers) && resolved <= start && model !in {"auto", "cheapest", "fastest"}
    requires var chain := ResolveChain(providers, logs, cfg, model, fallback, resolved);
      var visits := Walk(chain, logs, cfg, start, 0, env).visits;
      && s < |chain| && s == |visits| - 1 && visits[s].Tried? && visits[s].result.Answer?
      && a < b < |providers| && providers[b].name == chain[s].provider
    requires providers[a].supports(model) && Up(logs, cfg, providers[a].name, resolved)
    ensures fallback
    ensures var chain := ResolveChain(providers, logs, cfg, model, fallback, resolved);
      exists j :: 0 <= j < s && j < |chain| && chain[j] == Candidate(providers[a].name, model)
        && PassedOver(chain, logs, cfg, start, env, j)
  {
    var j := EarlierInChain(providers, logs, cfg, model, resolved, s, a, b);
    ConcreteChainIsExact(providers, logs, cfg, model, resolved);
    AheadIsPassedOver(ResolveChain(providers, logs, cfg, model, fallback, resolved), logs, cfg, resolved, start, env, j);
  }

  /**
   * "cheapest" end to end, for every behaviour of the providers and every interference: when a request is
   * served by a candidate, every priced model that costs less, of every provider that was up, comes
   * earlier in the chain, and it was called and failed, or was refused by its breaker when reached
   * (without interference: after a failure of its provider). Without fallback nothing costs less.
   */
  lemma {:induction false} CheaperOnesFailed(
      providers: seq<Provider>, logs: Logs, cfg: Breaker, model: string, fallback: bool,
      resolved: real, start: real, env: Environment, s: nat, cheaper: Priced)
    requires DistinctNames(providers) && resolved <= start && (model == "cheapest" || model == "fastest")
    requires var ranked := StableSort(PricedCandidates(providers, logs, cfg, resolved));
      var visits := Walk(ResolveChain(providers, logs, cfg, model, fallback, resolved), logs, cfg, start, 0, env).visits;
      && |visits| <= |ranked| && s == |visits| - 1
      && visits[s].Tried? && visits[s].result.Answer?
      && cheaper.price < ranked[s].price
    requires exists p :: p in providers && Up(logs, cfg, p.name, resolved) && cheaper in PricedModels(p.name, p.models)
    ensures fallback
    ensures var chain := ResolveChain(providers, logs, cfg, model, fallback, resolved);
      exists j :: 0 <= j < s && j < |chain| && chain[j] == cheaper.candidate && PassedOver(chain, logs, cfg, start, env, j)
  {
    var priced := PricedCandidates(providers, logs, cfg, resolved);
    var ranked := StableSort(priced);
    var chain := ResolveChain(providers, logs, cfg, model, fallback, resolved);
    PricedCandidatesAreExact(providers, logs, cfg, resolved, cheaper);
    SortKeepsMembers(priced, cheaper);
    var j :| 0 <= j < |ranked| && ranked[j] == cheaper;
    SortRising(priced);
    if j >= s {
      RisingIndices(ranked, Highest(priced), s, j);
    }
    WalkShape(chain, logs, cfg, start, 0, env);
    assert FullChain(providers, logs, cfg, model, resolved) == Candidates(ranked);
    FullChainIsUp(providers, logs, cfg, model, resolved);
    assert AllUp(chain, logs, cfg, resolved);
    assert chain[j] == cheaper.candidate;
    AheadIsPassedOver(chain, logs, cfg, resolved, start, env, j);
  }
}
