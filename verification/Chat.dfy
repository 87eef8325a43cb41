/** One chat completion from admission to answer: permission, cache, router, cache again, books. */
module Chat {
  import opened Windows
  import opened Policies
  import opened Pricing
  import opened Registry
  import opened Router
  import opened Completions
  import opened LruCache
  import RouterSpec
  import A = Accounting

  /** When each stretch between two waits ran. */
  datatype Clock = Clock(looked: real, resolved: real, started: real, stored: real, recorded: real)

  datatype HttpReply =
    | Forbidden
    | Unavailable
    | BadGateway(attempts: seq<Candidate>)
    | InternalError(undelivered: Answer)
    | FromCache(answer: Answer)
    | FromProvider(answer: Answer)

  /** The provider's answer behind a reply, delivered or not. */
  function Delivered(reply: HttpReply): Answer
    requires IsFromProvider(reply)
  {
    if reply.FromProvider? then reply.answer else reply.undelivered
  }

  /** A tenant without a list may use every model, and the routing aliases are open to all. */
  predicate ModelAllowed(allowed: Option<seq<string>>, model: string) {
    allowed.None? || model in allowed.value || model in ALIASES
  }

  /** What the router made of the request, given how every provider call turned out. */
  ghost function RoutedResult(reg: ProviderRegistry, model: string, fallback: bool, t: Clock,
      env: RouterSpec.Environment): RouterSpec.RouteResult
    reads reg
  {
    var chain := ResolveChain(reg.providers, reg.logs, reg.cfg, model, fallback, t.resolved);
    RouterSpec.WalkShape(chain, reg.logs, reg.cfg, t.started, 0, env);
    RouterSpec.RouteOutcome(chain, RouterSpec.Walk(chain, reg.logs, reg.cfg, t.started, 0, env).visits)
  }

  /** The books after a hit; one without metadata is not counted. */
  function HitEntered(b: A.Books, gateway: Option<Meta>): A.Books {
    if gateway.Some? then A.AfterHit(b) else b
  }

  predicate IsFromProvider(reply: HttpReply) {
    reply.FromProvider? || reply.InternalError?
  }

  /** The books after a reply that did not come from the cache: only a provider's answer is recorded. */
  function BooksAfter(b: A.Books, tenant: string, reply: HttpReply, fault: A.ChargeFault, stored: bool, at: real): A.Books {
    if IsFromProvider(reply) then A.Recorded(b, tenant, Delivered(reply).usage, fault, stored, at) else b
  }

  /** What a reply adds to the cache: a provider's answer, delivered or not, under the request's key if it has one. */
  function StoresOf(key: Option<CacheKey>, reply: HttpReply, at: real): seq<RoutedAnswer> {
    if IsFromProvider(reply) && key.Some? then [RoutedAnswer(key.value, Delivered(reply), at)] else []
  }

  /** Streamed requests bypass the cache. */
  function CacheKeyFor(request: ChatRequest, cacheEnabled: bool): Option<CacheKey> {
    if cacheEnabled && !request.stream then Some(KeyOf(request)) else None
  }

  /** The charge raised, so the caller gets an error in place of the answer. */
  predicate RaisedIff(reply: HttpReply, fault: A.ChargeFault) {
    IsFromProvider(reply) ==> (reply.InternalError? <==> fault != A.NoFault && Delivered(reply).usage.Total() > 0)
  }

  /** The answer is a relabelled copy of the one stored, which is no older than the lifetime. */
  ghost predicate IsHit(copy: Answer, latest: Option<RoutedAnswer>, now: real, ttl: real)
    reads copy, if latest.Some? then {latest.value.answer} else {}
  {
    && latest.Some? && now - latest.value.at <= ttl
    && copy.content == latest.value.answer.content && copy.usage == latest.value.answer.usage
    && copy.gateway == Relabelled(latest.value.answer.gateway)
  }

  /** A hit carries content and usage of the stored answer, and says of itself that it is one. */
  lemma HitMeans(copy: Answer, latest: Option<RoutedAnswer>, now: real, ttl: real)
    requires IsHit(copy, latest, now, ttl)
    ensures latest.Some? && now - latest.value.at <= ttl
    ensures copy.content == latest.value.answer.content && copy.usage == latest.value.answer.usage
    ensures latest.value.answer.gateway.None? ==> copy.gateway.None?
    ensures latest.value.answer.gateway.Some? ==>
      var meta := latest.value.answer.gateway.value;
      copy.gateway == Some(Meta(meta.provider, meta.upstreamModel, CacheHit, false, ["cache"]))
  {
  }

  /** A counted hit is one request and one hit, and nothing else changes. */
  lemma HitIsFree(b: A.Books, gateway: Option<Meta>)
    ensures var c := b.counters;
      HitEntered(b, gateway) ==
        if gateway.Some?
        then A.Books(b.charges, b.rows, A.Counters(c.requests + 1, c.prompt, c.completion, c.cost, c.hits + 1, c.misses))
        else b
  {
  }

  /** Only an answer that reached the caller or was lost to a raising charge is recorded. */
  lemma BooksAfterMeans(b: A.Books, tenant: string, reply: HttpReply, fault: A.ChargeFault, stored: bool, at: real)
    ensures BooksAfter(b, tenant, reply, fault, stored, at) ==
      match reply {
        case FromProvider(answer) => A.Recorded(b, tenant, answer.usage, fault, stored, at)
        case InternalError(answer) => A.Recorded(b, tenant, answer.usage, fault, stored, at)
        case _ => b
      }
    ensures RaisedIff(reply, fault) ==>
      && (reply.InternalError? ==> fault != A.NoFault && reply.undelivered.usage.prompt + reply.undelivered.usage.completion > 0)
      && (reply.FromProvider? ==> fault == A.NoFault || reply.answer.usage.prompt + reply.answer.usage.completion == 0)
  {
  }

  class Gateway {
    const table: seq<Price>
    const reg: ProviderRegistry
    const cache: ExactCache
    const accounts: A.Accounts

    constructor (table: seq<Price>, reg: ProviderRegistry, cache: ExactCache, accounts: A.Accounts)
      ensures this.table == table && this.reg == reg && this.cache == cache && this.accounts == accounts
    {
      this.table, this.reg, this.cache, this.accounts := table, reg, cache, accounts;
    }

    ghost predicate Sound()
      reads reg, reg.repr, cache, cache.cache, accounts.limiter, accounts.limiter.repr
    {
      reg.Valid() && cache.Valid() && accounts.limiter.Valid()
    }

    /** The writes after the providers were asked come no earlier than anything in the cache and the limiter. */
    ghost predicate InTime(t: Clock)
      reads cache, cache.cache, accounts.limiter
    {
      cache.cache.clock <= t.stored && accounts.limiter.clock <= t.recorded
    }

    ghost predicate Ready(t: Clock, env: RouterSpec.Environment)
      reads reg, reg.repr, cache, cache.cache, accounts.limiter, accounts.limiter.repr
    {
      && Sound() && InTime(t)
      && reg.clock <= t.resolved <= t.started && Punctual(env, 0, t.started)
    }

    /** Turns a provider's answer into the response object, with its cost. */
    method Answered(result: RouterSpec.RouteResult) returns (answer: Answer)
      requires result.Routed?
      ensures fresh(answer) && answer.content == result.response.content
      ensures answer.usage.prompt == result.response.promptTokens
      ensures answer.usage.completion == result.response.completionTokens
      ensures answer.usage.cost
           == Estimate(table, result.response.model, result.response.promptTokens, result.response.completionTokens)
      ensures answer.gateway.Some? && answer.gateway.value.cache == CacheMiss
      ensures answer.gateway.value.provider == result.provider
      ensures answer.gateway.value.upstreamModel == result.response.model
      ensures answer.gateway.value.fallbackUsed == result.fallbackUsed
      ensures |answer.gateway.value.attempts| == |result.attempts|
      ensures forall i :: 0 <= i < |result.attempts| ==>
        answer.gateway.value.attempts[i] == result.attempts[i].provider + ":" + result.attempts[i].model
    {
      var r := result.response;
      var cost := EstimateCost(table, r.model, r.promptTokens, r.completionTokens);
      var attempts := [];
      for i := 0 to |result.attempts|
        invariant |attempts| == i
        invariant forall j :: 0 <= j < i ==> attempts[j] == result.attempts[j].provider + ":" + result.attempts[j].model
      {
        attempts := attempts + [result.attempts[i].provider + ":" + result.attempts[i].model];
      }
      answer := new Answer(r.content, A.Usage(r.promptTokens, r.completionTokens, cost),
                           Some(Meta(result.provider, r.model, CacheMiss, result.fallbackUsed, attempts)));
    }

    /** A hit is a relabelled copy of the latest answer and counts as one request that used nothing. */
    method FromCacheFirst(tenant: string, key: CacheKey, t: Clock, ghost env: RouterSpec.Environment)
      returns (hit: Option<Answer>)
      requires Ready(t, env) && cache.cache.clock <= t.looked <= t.stored
      modifies cache.cache, accounts`counters
      ensures Ready(t, env) && cache.routed == old(cache.routed)
      ensures forall other :: other != tenant ==> accounts.BooksOf(other) == old(accounts.BooksOf(other))
      ensures hit.None? ==> accounts.BooksOf(tenant) == old(accounts.BooksOf(tenant))
      ensures
        && LatestRouted(cache.routed, key).Some? && t.looked - LatestRouted(cache.routed, key).value.at <= cache.ttl
        && |TouchedSince(old(cache.cache.log), key)| < cache.cache.max
        ==> hit.Some?
      ensures hit.Some? ==>
        && accounts.BooksOf(tenant) == HitEntered(old(accounts.BooksOf(tenant)), hit.value.gateway)
        && IsHit(hit.value, LatestRouted(cache.routed, key), t.looked, cache.ttl)
    {
      hit := cache.Lookup(key, t.looked);
      if hit.Some? {
        ghost var latest := LatestRouted(cache.routed, key).value.answer;
        ghost var meta := latest.gateway;
        CountIfKnown(tenant, hit.value, t, env);
        assert latest.gateway == meta;
      }
    }

    /** Counts a hit that says where its answer came from. */
    method CountIfKnown(tenant: string, hit: Answer, t: Clock, ghost env: RouterSpec.Environment)
      requires Ready(t, env)
      modifies accounts`counters
      ensures Ready(t, env)
      ensures forall other :: other != tenant ==> accounts.BooksOf(other) == old(accounts.BooksOf(other))
      ensures accounts.BooksOf(tenant) == HitEntered(old(accounts.BooksOf(tenant)), hit.gateway)
    {
      if hit.gateway.Some? {
        accounts.RecordHit(tenant);
      }
    }

    /**
     * An answer from a provider is stored under its key, if it has one, and enters the books. When the charge
     * raises, the caller gets no answer, but the stored one stays.
     */
    method Settle(tenant: string, key: Option<CacheKey>, answer: Answer, fault: A.ChargeFault, stored: bool, t: Clock)
      returns (raised: bool)
      requires Sound() && InTime(t)
      modifies cache, cache.cache, accounts, accounts.limiter, accounts.limiter.repr, accounts.spending
      ensures Sound()
      ensures raised <==> fault != A.NoFault && answer.usage.Total() > 0
      ensures cache.routed ==
        old(cache.routed) + if key.Some? then [RoutedAnswer(key.value, answer, t.stored)] else []
      ensures forall other :: other != tenant ==> accounts.BooksOf(other) == old(accounts.BooksOf(other))
      ensures answer.gateway.Some? ==>
        accounts.BooksOf(tenant)
        == A.Recorded(old(accounts.BooksOf(tenant)), tenant, answer.usage, fault, stored, t.recorded)
    {
      if key.Some? {
        cache.Store(key.value, answer, t.stored);
      }
      raised := Book(tenant, answer, fault, stored, t.recorded);
    }

    /** Without metadata only the charge is made. */
    method Book(tenant: string, answer: Answer, fault: A.ChargeFault, stored: bool, now: real) returns (raised: bool)
      requires accounts.limiter.Valid() && accounts.limiter.clock <= now
      modifies accounts, accounts.limiter, accounts.limiter.repr, accounts.spending
      ensures accounts.limiter.Valid()
      ensures raised <==> fault != A.NoFault && answer.usage.Total() > 0
      ensures forall other :: other != tenant ==> accounts.BooksOf(other) == old(accounts.BooksOf(other))
      ensures answer.gateway.Some? ==>
        accounts.BooksOf(tenant) == A.Recorded(old(accounts.BooksOf(tenant)), tenant, answer.usage, fault, stored, now)
    {
      if answer.gateway.Some? {
        raised := accounts.RecordCompletion(tenant, answer.usage, fault, stored, now);
      } else {
        raised := fault != A.NoFault && answer.usage.Total() > 0;
        if !raised || fault == A.AfterTheCharge {
          accounts.ChargeTokens(tenant, answer.usage, now);
        }
      }
    }

    /** Resolves, tries the chain and, when a provider answered, builds the response. */
    method AskProviders(request: ChatRequest, fallback: bool, t: Clock, env: RouterSpec.Environment)
      returns (reply: HttpReply)
      requires Ready(t, env)
      modifies reg, reg.repr
      ensures Sound() && InTime(t)
      ensures cache.routed == old(cache.routed)
      ensures forall tenant :: accounts.BooksOf(tenant) == old(accounts.BooksOf(tenant))
      ensures ProviderReply(reply, old(RoutedResult(reg, request.Model(), fallback, t, env)))
      ensures !reply.InternalError? && !reply.Forbidden? && !reply.FromCache?
      ensures reply.FromProvider? ==>
        fresh(reply.answer) && reply.answer.gateway.Some? && reply.answer.gateway.value.cache == CacheMiss
    {
      var result := Route(reg, request.Model(), fallback, t.resolved, t.started, env);
      match result {
        case NoProviderAvailable => reply := Unavailable;
        case AllProvidersFailed(attempts, _) => reply := BadGateway(attempts);
        case Routed(_, _, _, _) =>
          var answer := Answered(result);
          reply := FromProvider(answer);
      }
    }

    /** The reply that corresponds to what the router made of the request. */
    ghost predicate ProviderReply(reply: HttpReply, result: RouterSpec.RouteResult) {
      && (reply.Unavailable? <==> result.NoProviderAvailable?)
      && (reply.BadGateway? <==> result.AllProvidersFailed?)
      && (IsFromProvider(reply) <==> result.Routed?)
      && (reply.BadGateway? ==> reply.attempts == result.attempts)
      && (result.Routed? ==> AnswerFor(Delivered(reply), result.response))
    }

    /** The answer carries the response's content and tokens, at the price of its model. */
    ghost predicate AnswerFor(answer: Answer, response: RouterSpec.Response) {
      && answer.content == response.content
      && answer.usage.prompt == response.promptTokens
      && answer.usage.completion == response.completionTokens
      && answer.usage.cost == Estimate(table, response.model, response.promptTokens, response.completionTokens)
    }

    /** What a reply says about the router's result, and an answer about the response behind it. */
    lemma ProviderReplyMeans(reply: HttpReply, result: RouterSpec.RouteResult)
      requires ProviderReply(reply, result)
      ensures reply.Unavailable? <==> result.NoProviderAvailable?
      ensures reply.BadGateway? <==> result.AllProvidersFailed?
      ensures reply.BadGateway? ==> reply.attempts == result.attempts
      ensures reply.FromProvider? || reply.InternalError? <==> result.Routed?
      ensures result.Routed? ==>
        var response, answer := result.response, Delivered(reply);
        && answer.content == response.content
        && answer.usage.prompt == response.promptTokens && answer.usage.completion == response.completionTokens
        && answer.usage.cost == Estimate(table, response.model, response.promptTokens, response.completionTokens)
    {
    }

    /** The part after a miss: only an answer from a provider reaches the cache and the books. */
    method Serve(tenant: string, key: Option<CacheKey>, request: ChatRequest, fallback: bool, fault: A.ChargeFault,
        stored: bool, t: Clock, env: RouterSpec.Environment) returns (reply: HttpReply)
      requires Ready(t, env)
      modifies reg, reg.repr, cache, cache.cache, accounts, accounts.limiter, accounts.limiter.repr, accounts.spending
      ensures Sound()
      ensures ProviderReply(reply, old(RoutedResult(reg, request.Model(), fallback, t, env)))
      ensures RaisedIff(reply, fault)
      ensures forall other :: other != tenant ==> accounts.BooksOf(other) == old(accounts.BooksOf(other))
      ensures accounts.BooksOf(tenant)
           == BooksAfter(old(accounts.BooksOf(tenant)), tenant, reply, fault, stored, t.recorded)
      ensures cache.routed == old(cache.routed) + StoresOf(key, reply, t.stored)
    {
      reply := AskProviders(request, fallback, t, env);
      if reply.FromProvider? {
        var raised := Settle(tenant, key, reply.answer, fault, stored, t);
        if raised {
          reply := InternalError(reply.answer);
        }
      }
    }

    /**
     * Nobody is charged for a refusal, a failure or a hit. An answer from a provider is stored under its key
     * unless it is streamed, and enters the caller's books once; when its charge raises, the caller gets an
     * error, nothing but possibly the charge is booked, and the stored answer stays for later hits.
     */
    method ChatCompletions(tenant: string, allowed: Option<seq<string>>, request: ChatRequest,
        fallback: bool, cacheEnabled: bool, fault: A.ChargeFault, stored: bool, t: Clock, env: RouterSpec.Environment)
      returns (reply: HttpReply)
      requires Ready(t, env) && cache.cache.clock <= t.looked <= t.stored
      modifies reg, reg.repr, cache, cache.cache, accounts, accounts.limiter, accounts.limiter.repr, accounts.spending
      ensures Sound()
      ensures forall other :: other != tenant ==> accounts.BooksOf(other) == old(accounts.BooksOf(other))
      // refusals and failures
      ensures reply.Forbidden? <==>
        allowed.Some? && request.Model() !in allowed.value && request.Model() !in {"auto", "cheapest", "fastest"}
      ensures !reply.Forbidden? && !reply.FromCache? ==>
        ProviderReply(reply, old(RoutedResult(reg, request.Model(), fallback, t, env))) && RaisedIff(reply, fault)
      // when the cache answers, and with what
      ensures !reply.Forbidden? && cacheEnabled && !request.stream ==>
        var latest := LatestRouted(old(cache.routed), KeyOf(request));
        (latest.Some? && t.looked - latest.value.at <= cache.ttl
         && |TouchedSince(old(cache.cache.log), KeyOf(request))| < cache.cache.max) ==> reply.FromCache?
      ensures request.stream || !cacheEnabled ==> !reply.FromCache? && cache.routed == old(cache.routed)
      ensures reply.FromCache? ==>
        reg.logs == old(reg.logs) && IsHit(reply.answer, LatestRouted(old(cache.routed), KeyOf(request)), t.looked, cache.ttl)
      // what is stored and what is booked
      ensures cacheEnabled && !request.stream ==>
        var fromProvider := reply.FromProvider? || reply.InternalError?;
        cache.routed == old(cache.routed)
          + if fromProvider then [RoutedAnswer(KeyOf(request), Delivered(reply), t.stored)] else []
      ensures accounts.BooksOf(tenant) ==
        if reply.FromCache? then HitEntered(old(accounts.BooksOf(tenant)), reply.answer.gateway)
        else BooksAfter(old(accounts.BooksOf(tenant)), tenant, reply, fault, stored, t.recorded)
    {
      if !ModelAllowed(allowed, request.Model()) {
        return Forbidden;
      }
      reply := Complete(tenant, CacheKeyFor(request, cacheEnabled), request, fallback, fault, stored, t, env);
    }

    /** An answer for the key is young enough, and recent enough in use, that the cache must still hold it. */
    ghost predicate Remembered(routed: seq<RoutedAnswer>, log: seq<Touch<CacheKey, Answer>>, key: CacheKey, now: real) {
      && LatestRouted(routed, key).Some? && now - LatestRouted(routed, key).value.at <= cache.ttl
      && |TouchedSince(log, key)| < cache.cache.max
    }

    /** A permitted request: the cache first, if it may be used, then the providers. */
    method Complete(tenant: string, key: Option<CacheKey>, request: ChatRequest, fallback: bool, fault: A.ChargeFault,
        stored: bool, t: Clock, env: RouterSpec.Environment) returns (reply: HttpReply)
      requires Ready(t, env) && cache.cache.clock <= t.looked <= t.stored
      modifies reg, reg.repr, cache, cache.cache, accounts, accounts.limiter, accounts.limiter.repr, accounts.spending
      ensures Sound()
      ensures !reply.Forbidden? && RaisedIff(reply, fault)
      ensures key.Some? && Remembered(old(cache.routed), old(cache.cache.log), key.value, t.looked) ==> reply.FromCache?
      ensures forall other :: other != tenant ==> accounts.BooksOf(other) == old(accounts.BooksOf(other))
      ensures cache.routed == old(cache.routed) + StoresOf(key, reply, t.stored)
      ensures !reply.FromCache? ==>
        && ProviderReply(reply, old(RoutedResult(reg, request.Model(), fallback, t, env)))
        && accounts.BooksOf(tenant)
           == BooksAfter(old(accounts.BooksOf(tenant)), tenant, reply, fault, stored, t.recorded)
      ensures reply.FromCache? ==>
        && key.Some? && reg.logs == old(reg.logs)
        && accounts.BooksOf(tenant) == HitEntered(old(accounts.BooksOf(tenant)), reply.answer.gateway)
        && IsHit(reply.answer, LatestRouted(old(cache.routed), key.value), t.looked, cache.ttl)
    {
      if key.Some? {
        var hit := FromCacheFirst(tenant, key.value, t, env);
        if hit.Some? {
          return FromCache(hit.value);
        }
      }
      reply := Serve(tenant, key, request, fallback, fault, stored, t, env);
    }
  }
}
