/**
 * Chain resolution and the attempt loop, as they run over a registry of breakers.
 */
module Router {
  import opened Windows
  import opened Pricing
  import opened CircuitBreakers
  import opened Policies
  import opened Resolutions
  import opened RouterSpec
  import opened Registry

  /** The supporting providers whose breaker lets a call through, in registration order. */
  method ForModel(reg: ProviderRegistry, model: string, now: real) returns (chain: seq<Candidate>)
    requires reg.Valid() && reg.clock <= now
    modifies reg, reg.repr
    ensures reg.Valid() && reg.clock <= now && reg.repr == old(reg.repr)
    ensures reg.providers == old(reg.providers) && reg.logs == old(reg.logs)
    ensures chain == ConcreteChain(reg.providers, reg.logs, reg.cfg, model, now)
  {
    chain := [];
    var providers := reg.providers;
    for i := 0 to |providers|
      invariant reg.Valid() && reg.clock <= now && reg.repr == old(reg.repr)
      invariant reg.providers == old(reg.providers) && reg.logs == old(reg.logs)
      invariant chain == ConcreteChain(providers[..i], reg.logs, reg.cfg, model, now)
    {
      assert providers[..i + 1][..i] == providers[..i];
      if providers[i].supports(model) {
        var up := reg.Ask(providers[i].name, now);
        if up {
          chain := chain + [Candidate(providers[i].name, model)];
        }
      }
    }
    assert providers[..|providers|] == providers;
  }

  method DefaultsOfAll(reg: ProviderRegistry, now: real) returns (chain: seq<Candidate>)
    requires reg.Valid() && reg.clock <= now
    modifies reg, reg.repr
    ensures reg.Valid() && reg.clock <= now && reg.repr == old(reg.repr)
    ensures reg.providers == old(reg.providers) && reg.logs == old(reg.logs)
    ensures chain == AutoChain(reg.providers, reg.logs, reg.cfg, now)
  {
    chain := [];
    var providers := reg.providers;
    for i := 0 to |providers|
      invariant reg.Valid() && reg.clock <= now && reg.repr == old(reg.repr)
      invariant reg.providers == old(reg.providers) && reg.logs == old(reg.logs)
      invariant chain == AutoChain(providers[..i], reg.logs, reg.cfg, now)
    {
      assert providers[..i + 1][..i] == providers[..i];
      var up := reg.Ask(providers[i].name, now);
      if up && DefaultOf(providers[i]).Some? {
        chain := chain + [Candidate(providers[i].name, DefaultOf(providers[i]).value)];
      }
    }
    assert providers[..|providers|] == providers;
  }

  method ModelsWithPrice(provider: string, models: seq<string>) returns (priced: seq<Priced>)
    ensures priced == PricedModels(provider, models)
  {
    priced := [];
    for i := 0 to |models|
      invariant priced == PricedModels(provider, models[..i])
    {
      assert models[..i + 1][..i] == models[..i];
      var price := Lookup(PRICING, models[i]);
      if price.Some? {
        priced := priced + [Priced(price.value.input, Candidate(provider, models[i]))];
      }
    }
    assert models[..|models|] == models;
  }

  method AllPriced(reg: ProviderRegistry, now: real) returns (priced: seq<Priced>)
    requires reg.Valid() && reg.clock <= now
    modifies reg, reg.repr
    ensures reg.Valid() && reg.clock <= now && reg.repr == old(reg.repr)
    ensures reg.providers == old(reg.providers) && reg.logs == old(reg.logs)
    ensures priced == PricedCandidates(reg.providers, reg.logs, reg.cfg, now)
  {
    priced := [];
    var providers := reg.providers;
    for i := 0 to |providers|
      invariant reg.Valid() && reg.clock <= now && reg.repr == old(reg.repr)
      invariant reg.providers == old(reg.providers) && reg.logs == old(reg.logs)
      invariant priced == PricedCandidates(providers[..i], reg.logs, reg.cfg, now)
    {
      assert providers[..i + 1][..i] == providers[..i];
      var up := reg.Ask(providers[i].name, now);
      if up {
        var more := ModelsWithPrice(providers[i].name, providers[i].models);
        priced := priced + more;
      }
    }
    assert providers[..|providers|] == providers;
  }

  /** Resolution by policy; without fallback only the first candidate stays. */
  method ResolveByPolicy(reg: ProviderRegistry, model: string, fallback: bool, now: real) returns (chain: seq<Candidate>)
    requires reg.Valid() && reg.clock <= now
    modifies reg, reg.repr
    ensures reg.Valid() && reg.clock <= now && reg.repr == old(reg.repr)
    ensures reg.providers == old(reg.providers) && reg.logs == old(reg.logs)
    ensures chain == ResolveChain(reg.providers, reg.logs, reg.cfg, model, fallback, now)
  {
    if model !in ALIASES {
      chain := ForModel(reg, model, now);
    } else if model == "cheapest" || model == "fastest" {
      var priced := AllPriced(reg, now);
      chain := Candidates(StableSort(priced));
    } else {
      chain := DefaultsOfAll(reg, now);
    }
    if !fallback && chain != [] {
      chain := chain[..1];
    }
  }

  /**
   * The chain of a request. For a concrete model and for "auto" it holds those that can be asked, in
   * registration order, all of them with fallback and the first of them without. Asking the breakers
   * while resolving changes none of their later answers.
   */
  method Resolve(reg: ProviderRegistry, model: string, fallback: bool, now: real) returns (chain: seq<Candidate>)
    requires reg.Valid() && reg.clock <= now
    modifies reg, reg.repr
    ensures reg.Valid() && reg.clock <= now && reg.repr == old(reg.repr)
    ensures reg.providers == old(reg.providers) && reg.logs == old(reg.logs)
    ensures chain == ResolveChain(reg.providers, reg.logs, reg.cfg, model, fallback, now)
    ensures model !in {"auto", "cheapest", "fastest"} ==>
      && (forall c :: c in chain ==> c.model == model && exists p ::
           p in reg.providers && p.name == c.provider && p.supports(model) && Up(reg.logs, reg.cfg, p.name, now))
      && (fallback ==> forall p :: p in reg.providers && p.supports(model) && Up(reg.logs, reg.cfg, p.name, now) ==>
           Candidate(p.name, model) in chain)
      && (forall b ::
           (0 <= b < |reg.providers| && reg.providers[b].supports(model) && Up(reg.logs, reg.cfg, reg.providers[b].name, now))
           ==> chain != [] && exists a :: 0 <= a <= b && reg.providers[a].name == chain[0].provider)
    ensures model == "auto" ==>
      && (forall c :: c in chain ==> exists p ::
           p in reg.providers && p.name == c.provider && DefaultOf(p) == Some(c.model) && Up(reg.logs, reg.cfg, p.name, now))
      && (fallback ==> forall p :: p in reg.providers && DefaultOf(p).Some? && Up(reg.logs, reg.cfg, p.name, now) ==>
           Candidate(p.name, DefaultOf(p).value) in chain)
    ensures model != "cheapest" && model != "fastest" ==>
      && (!fallback ==> |chain| <= 1)
      && (forall i, j, a, b ::
           (0 <= i < j < |chain| && 0 <= a < |reg.providers| && 0 <= b < |reg.providers|
            && reg.providers[a].name == chain[i].provider && reg.providers[b].name == chain[j].provider) ==> a < b)
  {
    chain := ResolveByPolicy(reg, model, fallback, now);
    ghost var same;
    if model !in {"auto", "cheapest", "fastest"} {
      same := ConcreteResolution(reg.providers, reg.logs, reg.cfg, model, fallback, now);
    } else if model == "auto" {
      same := AutoResolution(reg.providers, reg.logs, reg.cfg, fallback, now);
    }
  }

  /** Other requests report in time order, after `from` and no later than `to`. */
  ghost predicate InTime(reports: seq<Report>, from: real, to: real) {
    if reports == [] then from <= to
    else
      var o := reports[0].outcome;
      && (o.Failure? ==> from <= o.at <= to)
      && InTime(reports[1..], if o.Failure? then o.at else from, to)
  }

  lemma {:induction false} InTimeFromEarlier(reports: seq<Report>, from: real, from': real, to: real)
    requires InTime(reports, from', to) && from <= from'
    ensures InTime(reports, from, to) && from' <= to
  {
    if reports != [] {
      var o := reports[0].outcome;
      if o.Failure? {
        InTimeFromEarlier(reports[1..], o.at, o.at, to);
      } else {
        InTimeFromEarlier(reports[1..], from, from', to);
      }
    }
  }

  method TellAll(reg: ProviderRegistry, reports: seq<Report>, to: real)
    requires reg.Valid() && InTime(reports, reg.clock, to)
    modifies reg, reg.repr
    ensures reg.Valid() && reg.clock <= to && reg.repr == old(reg.repr)
    ensures reg.providers == old(reg.providers) && reg.logs == RecordAll(old(reg.logs), reports)
    decreases |reports|
  {
    if reports != [] {
      var o := reports[0].outcome;
      InTimeFromEarlier(reports[1..], reg.clock, if o.Failure? then o.at else reg.clock, to);
      reg.Tell(reports[0]);
      TellAll(reg, reports[1..], to);
    }
  }

  /** What other requests record while each call is awaited falls inside that call's time. */
  ghost predicate Punctual(env: Environment, n: nat, now: real) {
    && InTime(env(n).others, now, env(n).at)
    && forall m: nat :: n <= m ==> InTime(env(m + 1).others, env(m).at, env(m + 1).at)
  }

  /** One awaited call: what others record meanwhile reaches the breakers first, then this call's own outcome. */
  method Call(reg: ProviderRegistry, c: Candidate, reply: Reply)
    requires reg.Valid() && InTime(reply.others, reg.clock, reply.at)
    modifies reg, reg.repr
    ensures reg.Valid() && reg.clock <= reply.at && reg.repr == old(reg.repr)
    ensures reg.providers == old(reg.providers) && reg.logs == LogsAfterCall(old(reg.logs), c, reply)
    ensures var before := RecordAll(old(reg.logs), reply.others);
      var outcome := if reply.result.Answer? then Success else Failure(reply.at);
      reg.logs == if c.provider in before then before[c.provider := before[c.provider] + [outcome]] else before
  {
    TellAll(reg, reply.others, reply.at);
    match reply.result {
      case Answer(_) => reg.Tell(Report(c.provider, Success));
      case _ => reg.Tell(Report(c.provider, Failure(reply.at)));
    }
  }

  /** Reaching one candidate: it is passed over when its breaker refuses, and called otherwise. */
  method Reach(reg: ProviderRegistry, c: Candidate, now: real, reply: Reply) returns (v: Visit)
    requires reg.Valid() && reg.clock <= now && InTime(reply.others, now, reply.at)
    modifies reg, reg.repr
    ensures reg.Valid() && reg.repr == old(reg.repr) && reg.providers == old(reg.providers)
    ensures v == if Up(old(reg.logs), reg.cfg, c.provider, now) then Tried(reply.result) else Skipped
    ensures v.Skipped? ==> reg.clock <= now && reg.logs == old(reg.logs)
    ensures v.Tried? ==> reg.clock <= reply.at && reg.logs == LogsAfterCall(old(reg.logs), c, reply)
  {
    var up := reg.Ask(c.provider, now);
    if !up {
      return Skipped;
    }
    InTimeFromEarlier(reply.others, reg.clock, now, reply.at);
    Call(reg, c, reply);
    v := Tried(reply.result);
  }

  /** The attempt loop over a resolved chain. */
  method TryChain(reg: ProviderRegistry, chain: seq<Candidate>, start: real, env: Environment)
    returns (result: RouteResult)
    requires reg.Valid() && reg.clock <= start && Punctual(env, 0, start)
    modifies reg, reg.repr
    ensures reg.Valid() && reg.repr == old(reg.repr) && reg.providers == old(reg.providers)
    ensures (result, reg.logs) == Finish(chain, old(reg.logs), reg.cfg, start, [], None, env)
  {
    var attempts: seq<Candidate> := [];
    var lastError: Option<ChatResult> := None;
    var now := start;
    for i := 0 to |chain|
      invariant reg.Valid() && reg.clock <= now && reg.repr == old(reg.repr) && reg.providers == old(reg.providers)
      invariant Punctual(env, |attempts|, now)
      invariant Finish(chain[i..], reg.logs, reg.cfg, now, attempts, lastError, env)
             == Finish(chain, old(reg.logs), reg.cfg, start, [], None, env)
    {
      assert chain[i..][1..] == chain[i + 1..];
      var reply := env(|attempts|);
      var v := Reach(reg, chain[i], now, reply);
      if v.Skipped? {
        continue;
      }
      attempts := attempts + [chain[i]];
      now := reply.at;
      if reply.result.Answer? {
        return Routed(chain[i].provider, reply.result.response, attempts, |attempts| > 1);
      }
      lastError := Some(reply.result);
      if reply.result == ProviderError(false) {
        return AllProvidersFailed(attempts, lastError);
      }
    }
    result := AllProvidersFailed(attempts, lastError);
  }

  /** Resolves the chain and works through it; the result and the breakers are those of the specified walk. */
  method Route(reg: ProviderRegistry, model: string, fallback: bool, resolved: real, start: real, env: Environment)
    returns (result: RouteResult)
    requires reg.Valid() && reg.clock <= resolved <= start && Punctual(env, 0, start)
    modifies reg, reg.repr
    ensures reg.Valid() && reg.repr == old(reg.repr) && reg.providers == old(reg.providers)
    ensures var chain := ResolveChain(old(reg.providers), old(reg.logs), reg.cfg, model, fallback, resolved);
      var w := Walk(chain, old(reg.logs), reg.cfg, start, 0, env);
      && |w.visits| <= |chain|
      && result == RouteOutcome(chain, w.visits)
      && reg.logs == w.logs
    ensures model !in {"auto", "cheapest", "fastest"} ==> (result.NoProviderAvailable? <==>
      forall p :: p in reg.providers && p.supports(model) ==> !Up(old(reg.logs), reg.cfg, p.name, resolved))
    ensures model !in {"auto", "cheapest", "fastest"} && fallback && RanOut(result) ==>
      forall p :: p in reg.providers && p.supports(model) && Up(old(reg.logs), reg.cfg, p.name, resolved) ==>
        || Candidate(p.name, model) in result.attempts
        || RefusedWhenReached(ResolveChain(old(reg.providers), old(reg.logs), reg.cfg, model, true, resolved),
                              old(reg.logs), reg.cfg, start, env, Candidate(p.name, model))
  {
    ghost var logs := reg.logs;
    var chain := Resolve(reg, model, fallback, resolved);
    if model !in {"auto", "cheapest", "fastest"} {
      UnservedMeansNobodyIsLeft(reg.providers, logs, reg.cfg, model, fallback, resolved, start, env);
    }
    if chain == [] {
      return NoProviderAvailable;
    }
    FinishIsWalk(chain, reg.logs, reg.cfg, start, [], None, env);
    ghost var attempts := Attempts(chain, Walk(chain, reg.logs, reg.cfg, start, 0, env).visits);
    assert [] + attempts == attempts;
    result := TryChain(reg, chain, start, env);
  }
}
