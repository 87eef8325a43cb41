/** Who may call: authentication, then the request rate, then the token rate, then the monthly budget. */
module Gates {
  import opened Windows
  import opened RateLimiter
  import opened RateLimitRuns
  import opened Budgets

  datatype Tenant = Tenant(id: TenantId, rpmLimit: int, tpmLimit: int, budget: Option<int>)

  /** The tenant every caller becomes when authentication is off. */
  const ANONYMOUS := Tenant("anonymous", 10_000, 10_000_000, None)

  datatype GateResult =
    | Granted(tenant: Tenant)
    | MissingToken
    | InvalidKey
    | TooManyRequests(retryAfter: Option<int>)
    | PaymentRequired(spent: int, budget: Option<int>)

  /** The three checks read the clock one after the other. */
  datatype Times = Times(request: real, tokens: real, budget: real)

  /**
   * The answer a known tenant gets, from its full logs and the usage table: the first check that fails
   * decides it, and only a refusal by the request rate carries a Retry-After.
   */
  ghost predicate Answers(r: GateResult, tenant: Tenant, ledger: Ledger, rows: seq<Row>, at: Times)
    requires tenant.rpmLimit >= 1
  {
    var rpm := RpmDecision(ledger.admissions, at.request, tenant.rpmLimit);
    var tpm := TpmDecision(ledger.charges, at.tokens, tenant.tpmLimit);
    var spent := Spent(rows, tenant.id);
    && (r == Granted(tenant) <==> rpm.Allowed? && tpm.Allowed? && Decide(tenant.budget, spent).allowed)
    && (rpm.Denied? ==> r == TooManyRequests(Some(RetryAfterHeader(rpm.retryAfter))))
    && (r == TooManyRequests(None) <==> rpm.Allowed? && tpm.Denied?)
    && (r == PaymentRequired(spent, tenant.budget)
        <==> rpm.Allowed? && tpm.Allowed? && !Decide(tenant.budget, spent).allowed)
  }

  /** A request that passes the request rate has used a slot, even when a later check turns it away. */
  ghost function SlotUsed(tenant: Tenant, ledger: Ledger, at: Times): Ledger
    requires tenant.rpmLimit >= 1
  {
    if RpmDecision(ledger.admissions, at.request, tenant.rpmLimit).Allowed?
    then Ledger(ledger.admissions + [at.request], ledger.charges) else ledger
  }

  /** Logs and table leave exactly one answer. */
  lemma {:induction false} AnswerIsUnique(r: GateResult, r': GateResult, tenant: Tenant, ledger: Ledger, rows: seq<Row>,
      at: Times)
    requires tenant.rpmLimit >= 1
    requires Answers(r, tenant, ledger, rows, at) && Answers(r', tenant, ledger, rows, at)
    ensures r == r'
  {
  }

  /** The answer in plain terms: what the last minute and the month hold, against the tenant's three limits. */
  ghost predicate AnswersByUse(r: GateResult, tenant: Tenant, admitted: nat, used: int, spent: int) {
    var within := tenant.budget.None? || tenant.budget.value <= 0 || spent < tenant.budget.value;
    && (r.Granted? <==> admitted < tenant.rpmLimit && used < tenant.tpmLimit && within)
    && (r.Granted? ==> r.tenant == tenant)
    && (r.TooManyRequests? <==> admitted >= tenant.rpmLimit || used >= tenant.tpmLimit)
    && (r.TooManyRequests? ==> (r.retryAfter.Some? <==> admitted >= tenant.rpmLimit))
    && (r.PaymentRequired? <==> admitted < tenant.rpmLimit && used < tenant.tpmLimit && !within)
    && (r.PaymentRequired? ==> r.spent == spent && r.budget == tenant.budget)
  }

  lemma AnswersMean(r: GateResult, tenant: Tenant, ledger: Ledger, rows: seq<Row>, at: Times, now: real)
    requires tenant.rpmLimit >= 1 && Answers(r, tenant, ledger, rows, at)
    requires Past(ledger.admissions, now) && PastCharges(ledger.charges, now) && now <= at.request <= at.tokens
    ensures AnswersByUse(r, tenant, CountBetween(ledger.admissions, at.request - 60.0, at.request),
                         UsedBetween(ledger.charges, at.tokens - 60.0, at.tokens), Spent(rows, tenant.id))
    ensures SlotUsed(tenant, ledger, at) ==
      if CountBetween(ledger.admissions, at.request - 60.0, at.request) >= tenant.rpmLimit then ledger
      else Ledger(ledger.admissions + [at.request], ledger.charges)
  {
    PastLater(ledger.admissions, now, at.request);
    RefusedIffWindowFull(ledger.admissions, at.request, tenant.rpmLimit);
    RefusedIffTokensSpent(ledger.charges, at.tokens, tenant.tpmLimit);
  }

  class Gate {
    const authEnabled: bool
    const keys: map<string, Tenant>
    const limiter: InMemoryRateLimiter
    const cache: MtdCostCache

    ghost predicate Valid(rows: seq<Row>, now: real)
      reads limiter, limiter.repr, cache
    {
      && limiter.Valid() && limiter.clock <= now
      && Agrees(cache.data, rows, now)
      && (forall key :: key in keys ==> keys[key].rpmLimit >= 1)
    }

    constructor (authEnabled: bool, keys: map<string, Tenant>, limiter: InMemoryRateLimiter, cache: MtdCostCache)
      ensures this.authEnabled == authEnabled && this.keys == keys
      ensures this.limiter == limiter && this.cache == cache
    {
      this.authEnabled, this.keys, this.limiter, this.cache := authEnabled, keys, limiter, cache;
    }

    /** The two rate checks; no answer means both passed. */
    method CheckRates(tenant: Tenant, at: Times) returns (r: Option<GateResult>)
      requires at.request <= at.tokens && limiter.Valid() && limiter.clock <= at.request && tenant.rpmLimit >= 1
      modifies limiter, limiter.repr
      ensures limiter.Valid() && limiter.clock <= at.tokens
      ensures var ledger := LedgerOf(old(limiter.ledgers), tenant.id);
        var rpm := RpmDecision(ledger.admissions, at.request, tenant.rpmLimit);
        && r == (if rpm.Denied? then Some(TooManyRequests(Some(RetryAfterHeader(rpm.retryAfter))))
                 else if TpmDecision(ledger.charges, at.tokens, tenant.tpmLimit).Denied? then Some(TooManyRequests(None))
                 else None)
        && limiter.ledgers == old(limiter.ledgers)[tenant.id := SlotUsed(tenant, ledger, at)]
    {
      var decision := limiter.CheckRequest(tenant.id, tenant.rpmLimit, at.request);
      if decision.Denied? {
        return Some(TooManyRequests(Some(RetryAfterHeader(decision.retryAfter))));
      }
      ghost var after := LedgerOf(limiter.ledgers, tenant.id);
      decision := limiter.CheckTokens(tenant.id, tenant.tpmLimit, at.tokens);
      UpdateTwice(old(limiter.ledgers), tenant.id, after, after);
      r := if decision.Denied? then Some(TooManyRequests(None)) else None;
    }

    /** The three checks on a known tenant, in the order they cost. */
    method CheckTenant(tenant: Tenant, rows: seq<Row>, at: Times) returns (r: GateResult)
      requires at.request <= at.tokens <= at.budget && Valid(rows, at.request) && tenant.rpmLimit >= 1
      modifies limiter, limiter.repr, cache
      ensures Valid(rows, at.budget)
      ensures var ledger := LedgerOf(old(limiter.ledgers), tenant.id);
        && Answers(r, tenant, ledger, rows, at)
        && limiter.ledgers == old(limiter.ledgers)[tenant.id := SlotUsed(tenant, ledger, at)]
    {
      AgreesLater(cache.data, rows, at.request, at.budget);
      var refused := CheckRates(tenant, at);
      if refused.Some? {
        return refused.value;
      }
      var decision := CheckBudget(cache, rows, tenant.id, tenant.budget, at.budget);
      r := if decision.allowed then Granted(tenant) else PaymentRequired(decision.spent, decision.budget);
    }

    /** Without authentication everyone is the anonymous tenant and nothing is checked or counted. */
    method GetCurrentTenant(token: Option<string>, rows: seq<Row>, at: Times) returns (r: GateResult)
      requires at.request <= at.tokens <= at.budget && Valid(rows, at.request)
      modifies limiter, limiter.repr, cache
      ensures Valid(rows, at.budget)
      ensures !authEnabled ==> r == Granted(ANONYMOUS)
      ensures r.MissingToken? <==> authEnabled && (token.None? || token.value == "")
      ensures r.InvalidKey? <==> authEnabled && token.Some? && token.value != "" && token.value !in keys
      ensures !authEnabled || token.None? || token.value == "" || token.value !in keys ==>
        limiter.ledgers == old(limiter.ledgers) && cache.data == old(cache.data)
      ensures authEnabled && token.Some? && token.value != "" && token.value in keys ==>
        var tenant, ledgers := keys[token.value], old(limiter.ledgers);
        var ledger := if tenant.id in ledgers then ledgers[tenant.id] else Ledger([], []);
        var admitted := CountBetween(ledger.admissions, at.request - 60.0, at.request);
        && Answers(r, tenant, ledger, rows, at)
        && AnswersByUse(r, tenant, admitted, UsedBetween(ledger.charges, at.tokens - 60.0, at.tokens), Spent(rows, tenant.id))
        && limiter.ledgers ==
             ledgers[tenant.id := if admitted >= tenant.rpmLimit then ledger
                                  else Ledger(ledger.admissions + [at.request], ledger.charges)]
    {
      if !authEnabled {
        AgreesLater(cache.data, rows, at.request, at.budget);
        return Granted(ANONYMOUS);
      }
      if token.None? || token.value == "" {
        AgreesLater(cache.data, rows, at.request, at.budget);
        return MissingToken;
      }
      if token.value !in keys {
        AgreesLater(cache.data, rows, at.request, at.budget);
        return InvalidKey;
      }
      ghost var tenant, before := keys[token.value], limiter.clock;
      ghost var ledger := LedgerOf(limiter.ledgers, tenant.id);
      limiter.LedgerIsPast(tenant.id);
      r := CheckTenant(keys[token.value], rows, at);
      AnswersMean(r, tenant, ledger, rows, at, before);
    }
  }
}
