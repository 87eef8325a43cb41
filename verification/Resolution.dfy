/**
 * What a resolved chain holds and in which order, said by the registered providers alone: who is
 * asked at all, who is asked first, and what switching fallback off leaves.
 */
module Resolutions {
  import opened Windows
  import opened Pricing
  import opened CircuitBreakers
  import opened Policies

  // ---------- registration order ----------

  /** Whoever comes earlier in the chain was registered earlier. */
  ghost predicate InRegistrationOrder(chain: seq<Candidate>, providers: seq<Provider>) {
    forall i, j, a, b ::
      (0 <= i < j < |chain| && 0 <= a < |providers| && 0 <= b < |providers|
       && providers[a].name == chain[i].provider && providers[b].name == chain[j].provider) ==> a < b
  }

  ghost predicate AllNamed(chain: seq<Candidate>, providers: seq<Provider>) {
    forall c :: c in chain ==> exists p :: p in providers && p.name == c.provider
  }

  /** One more provider, with or without a candidate of its own at the end of the chain. */
  lemma OrderIsKept(chain: seq<Candidate>, providers: seq<Provider>, p: Provider, more: seq<Candidate>)
    requires InRegistrationOrder(chain, providers) && AllNamed(chain, providers)
    requires DistinctNames(providers + [p])
    requires more == [] || (|more| == 1 && more[0].provider == p.name)
    ensures InRegistrationOrder(chain + more, providers + [p]) && AllNamed(chain + more, providers + [p])
  {
    var longer, all := chain + more, providers + [p];
    forall c | c in chain ensures c.provider != p.name && exists q :: q in all && q.name == c.provider {
      var q :| q in providers && q.name == c.provider;
      var a :| 0 <= a < |providers| && providers[a] == q;
      assert all[a] == q && all[|providers|] == p;
    }
    assert p in all;
    forall i, j, a, b |
      0 <= i < j < |longer| && 0 <= a < |all| && 0 <= b < |all|
      && all[a].name == longer[i].provider && all[b].name == longer[j].provider
      ensures a < b
    {
      assert longer[i] in chain;
      assert a < |providers| && all[a] == providers[a];
      if j < |chain| {
        assert longer[j] in chain;
      } else {
        assert all[b].name == all[|providers|].name;
      }
    }
  }

  lemma {:induction false} ConcreteChainInOrder(
      providers: seq<Provider>, logs: Logs, cfg: Breaker, model: string, now: real)
    requires DistinctNames(providers)
    ensures var chain := ConcreteChain(providers, logs, cfg, model, now);
      InRegistrationOrder(chain, providers) && AllNamed(chain, providers)
  {
    if providers != [] {
      var init, p := providers[..|providers| - 1], providers[|providers| - 1];
      ConcreteChainInOrder(init, logs, cfg, model, now);
      assert init + [p] == providers;
      OrderIsKept(ConcreteChain(init, logs, cfg, model, now), init, p,
                  if p.supports(model) && Up(logs, cfg, p.name, now) then [Candidate(p.name, model)] else []);
    }
  }

  lemma {:induction false} AutoChainInOrder(providers: seq<Provider>, logs: Logs, cfg: Breaker, now: real)
    requires DistinctNames(providers)
    ensures var chain := AutoChain(providers, logs, cfg, now);
      InRegistrationOrder(chain, providers) && AllNamed(chain, providers)
  {
    if providers != [] {
      var init, p := providers[..|providers| - 1], providers[|providers| - 1];
      AutoChainInOrder(init, logs, cfg, now);
      assert init + [p] == providers;
      OrderIsKept(AutoChain(init, logs, cfg, now), init, p,
        if Up(logs, cfg, p.name, now) && DefaultOf(p).Some? then [Candidate(p.name, DefaultOf(p).value)] else []);
    }
  }

  lemma ServerIsInChain(providers: seq<Provider>, logs: Logs, cfg: Breaker, model: string, now: real, p: Provider)
    requires DistinctNames(providers)
    requires p in providers && p.supports(model) && Up(logs, cfg, p.name, now)
    ensures Candidate(p.name, model) in ConcreteChain(providers, logs, cfg, model, now)
  {
    ConcreteChainIsExact(providers, logs, cfg, model, now);
    assert Serves(providers, logs, cfg, Candidate(p.name, model), now);
  }

  lemma EarlierStandsAhead(chain: seq<Candidate>, providers: seq<Provider>, j: nat, s: nat, a: nat, b: nat)
    requires InRegistrationOrder(chain, providers) && DistinctNames(providers)
    requires j < |chain| && s < |chain| && a < b < |providers|
    requires providers[a].name == chain[j].provider && providers[b].name == chain[s].provider
    ensures j < s
  {
    assert j > s ==> b < a;
    assert providers[a].name != providers[b].name;
  }

  lemma HeadIsRegisteredFirst(chain: seq<Candidate>, providers: seq<Provider>, c: Candidate, b: nat)
    requires InRegistrationOrder(chain, providers) && AllNamed(chain, providers)
    requires c in chain && b < |providers| && providers[b].name == c.provider
    ensures exists a :: 0 <= a <= b && providers[a].name == chain[0].provider
  {
    var k :| 0 <= k < |chain| && chain[k] == c;
    if k > 0 {
      var p :| p in providers && p.name == chain[0].provider;
      var a :| 0 <= a < |providers| && providers[a] == p;
      assert a < b;
    }
  }

  // ---------- concrete models and "auto" ----------

  lemma MemberIsServer(providers: seq<Provider>, logs: Logs, cfg: Breaker, model: string, now: real, c: Candidate)
    requires DistinctNames(providers) && c in ConcreteChain(providers, logs, cfg, model, now)
    ensures c.model == model && exists p ::
      p in providers && p.name == c.provider && p.supports(model) && Up(logs, cfg, p.name, now)
  {
    ConcreteChainIsExact(providers, logs, cfg, model, now);
    assert Serves(providers, logs, cfg, c, now);
  }

  lemma FirstServer(providers: seq<Provider>, logs: Logs, cfg: Breaker, model: string, now: real, b: nat)
    returns (a: nat)
    requires DistinctNames(providers) && b < |providers|
    requires providers[b].supports(model) && Up(logs, cfg, providers[b].name, now)
    ensures ConcreteChain(providers, logs, cfg, model, now) != []
    ensures a <= b && providers[a].name == ConcreteChain(providers, logs, cfg, model, now)[0].provider
  {
    var full := ConcreteChain(providers, logs, cfg, model, now);
    ServerIsInChain(providers, logs, cfg, model, now, providers[b]);
    ConcreteChainInOrder(providers, logs, cfg, model, now);
    HeadIsRegisteredFirst(full, providers, Candidate(providers[b].name, model), b);
    a :| a <= b && providers[a].name == full[0].provider;
  }

  /**
   * A concrete model: only providers that serve it and are up, with that model, in registration
   * order. With fallback all of them; without, at most one. In both cases the head is the first
   * registered of them.
   */
  lemma ConcreteResolution(
      providers: seq<Provider>, logs: Logs, cfg: Breaker, model: string, fallback: bool, now: real)
    returns (chain: seq<Candidate>)
    requires DistinctNames(providers) && model !in {"auto", "cheapest", "fastest"}
    ensures chain == ResolveChain(providers, logs, cfg, model, fallback, now)
    ensures forall c :: c in chain ==> c.model == model && exists p ::
      p in providers && p.name == c.provider && p.supports(model) && Up(logs, cfg, p.name, now)
    ensures fallback ==> forall p :: p in providers && p.supports(model) && Up(logs, cfg, p.name, now) ==>
      Candidate(p.name, model) in chain
    ensures !fallback ==> |chain| <= 1
    ensures forall b :: 0 <= b < |providers| && providers[b].supports(model) && Up(logs, cfg, providers[b].name, now) ==>
      chain != [] && exists a :: 0 <= a <= b && providers[a].name == chain[0].provider
    ensures forall i, j, a, b ::
      (0 <= i < j < |chain| && 0 <= a < |providers| && 0 <= b < |providers|
       && providers[a].name == chain[i].provider && providers[b].name == chain[j].provider) ==> a < b
  {
    var full := ConcreteChain(providers, logs, cfg, model, now);
    chain := ResolveChain(providers, logs, cfg, model, fallback, now);
    forall c | c in chain ensures c.model == model && exists p ::
      p in providers && p.name == c.provider && p.supports(model) && Up(logs, cfg, p.name, now)
    {
      assert c in full;
      MemberIsServer(providers, logs, cfg, model, now, c);
    }
    forall p | p in providers && p.supports(model) && Up(logs, cfg, p.name, now) ensures Candidate(p.name, model) in full {
      ServerIsInChain(providers, logs, cfg, model, now, p);
    }
    forall b | 0 <= b < |providers| && providers[b].supports(model) && Up(logs, cfg, providers[b].name, now)
      ensures full != [] && exists a :: 0 <= a <= b && providers[a].name == full[0].provider
    {
      var _ := FirstServer(providers, logs, cfg, model, now, b);
    }
    assert InRegistrationOrder(chain, providers) by {
      ConcreteChainInOrder(providers, logs, cfg, model, now);
    }
  }

  /** The default is the configured model, or else the first listed; an empty name does not count. */
  lemma DefaultIs(p: Provider, m: string)
    ensures DefaultOf(p) == Some(m) <==>
      && m != ""
      && if p.defaultModel.Some? && p.defaultModel.value != "" then m == p.defaultModel.value
         else p.models != [] && m == p.models[0]
  {
  }

  /** "auto": the providers that are up and have a default, each with it, in the same manner. */
  lemma AutoResolution(providers: seq<Provider>, logs: Logs, cfg: Breaker, fallback: bool, now: real)
    returns (chain: seq<Candidate>)
    requires DistinctNames(providers)
    ensures chain == ResolveChain(providers, logs, cfg, "auto", fallback, now)
    ensures forall c :: c in chain ==> exists p ::
      p in providers && p.name == c.provider && DefaultOf(p) == Some(c.model) && Up(logs, cfg, p.name, now)
    ensures fallback ==> forall p :: p in providers && DefaultOf(p).Some? && Up(logs, cfg, p.name, now) ==>
      Candidate(p.name, DefaultOf(p).value) in chain
    ensures !fallback ==> |chain| <= 1
    ensures forall b :: 0 <= b < |providers| && DefaultOf(providers[b]).Some? && Up(logs, cfg, providers[b].name, now) ==>
      chain != [] && exists a :: 0 <= a <= b && providers[a].name == chain[0].provider
    ensures forall i, j, a, b ::
      (0 <= i < j < |chain| && 0 <= a < |providers| && 0 <= b < |providers|
       && providers[a].name == chain[i].provider && providers[b].name == chain[j].provider) ==> a < b
  {
    var full := AutoChain(providers, logs, cfg, now);
    chain := ResolveChain(providers, logs, cfg, "auto", fallback, now);
    AutoChainIsExact(providers, logs, cfg, now);
    forall p | p in providers && DefaultOf(p).Some? && Up(logs, cfg, p.name, now)
      ensures Candidate(p.name, DefaultOf(p).value) in full
    {
      var c := Candidate(p.name, DefaultOf(p).value);
      assert DefaultOf(p) == Some(c.model);
    }
    AutoChainInOrder(providers, logs, cfg, now);
    forall b | 0 <= b < |providers| && DefaultOf(providers[b]).Some? && Up(logs, cfg, providers[b].name, now)
      ensures full != [] && exists a :: 0 <= a <= b && providers[a].name == full[0].provider
    {
      HeadIsRegisteredFirst(full, providers, Candidate(providers[b].name, DefaultOf(providers[b]).value), b);
    }
  }

  // ---------- "cheapest" and "fastest" ----------

  /** The first is listed before the second: by an earlier provider, or earlier by the same one. */
  ghost predicate ListedBefore(providers: seq<Provider>, c: Candidate, d: Candidate) {
    exists a, b, u, v ::
      && 0 <= a <= b < |providers| && providers[a].name == c.provider && providers[b].name == d.provider
      && 0 <= u < |providers[a].models| && providers[a].models[u] == c.model
      && 0 <= v < |providers[b].models| && providers[b].models[v] == d.model
      && (a < b || u < v)
  }

  /** The candidate stands in the list of a provider. */
  ghost predicate Listed(providers: seq<Provider>, c: Candidate) {
    exists a, u ::
      && 0 <= a < |providers| && providers[a].name == c.provider
      && 0 <= u < |providers[a].models| && providers[a].models[u] == c.model
  }

  ghost predicate AsListed(priced: seq<Priced>, providers: seq<Provider>) {
    && (forall i :: 0 <= i < |priced| ==> Listed(providers, priced[i].candidate))
    && (forall i, j :: 0 <= i < j < |priced| ==> ListedBefore(providers, priced[i].candidate, priced[j].candidate))
  }

  lemma ListedEarlier(providers: seq<Provider>, p: Provider, c: Candidate, v: nat)
    requires Listed(providers, c) && v < |p.models|
    ensures ListedBefore(providers + [p], c, Candidate(p.name, p.models[v]))
  {
    var a, u :| 0 <= a < |providers| && providers[a].name == c.provider
      && 0 <= u < |providers[a].models| && providers[a].models[u] == c.model;
    var all, b := providers + [p], |providers|;
    assert all[a] == providers[a] && all[b] == p;
    assert all[a].models[u] == c.model && all[b].models[v] == p.models[v];
  }

  lemma ListedLonger(providers: seq<Provider>, p: Provider, c: Candidate, d: Candidate)
    ensures Listed(providers, c) ==> Listed(providers + [p], c)
    ensures ListedBefore(providers, c, d) ==> ListedBefore(providers + [p], c, d)
  {
    var all := providers + [p];
    if Listed(providers, c) {
      var a, u :| 0 <= a < |providers| && providers[a].name == c.provider
        && 0 <= u < |providers[a].models| && providers[a].models[u] == c.model;
      assert all[a] == providers[a] && all[a].models[u] == c.model;
    }
    if ListedBefore(providers, c, d) {
      var a, b, u, v :|
        && 0 <= a <= b < |providers| && providers[a].name == c.provider && providers[b].name == d.provider
        && 0 <= u < |providers[a].models| && providers[a].models[u] == c.model
        && 0 <= v < |providers[b].models| && providers[b].models[v] == d.model
        && (a < b || u < v);
      assert all[a] == providers[a] && all[b] == providers[b];
      assert all[a].models[u] == c.model && all[b].models[v] == d.model;
    }
  }

  /** Where a provider's priced models stand in its list. */
  lemma {:induction false} PricedModelsAsListed(provider: string, models: seq<string>) returns (at: seq<nat>)
    ensures |at| == |PricedModels(provider, models)|
    ensures forall i :: 0 <= i < |at| ==> at[i] < |models| && PricedModels(provider, models)[i].candidate == Candidate(provider, models[at[i]])
    ensures forall i, j :: 0 <= i < j < |at| ==> at[i] < at[j]
  {
    at := [];
    if models != [] {
      var init, last := models[..|models| - 1], models[|models| - 1];
      var front := PricedModelsAsListed(provider, init);
      var rest, priced := PricedModels(provider, init), PricedModels(provider, models);
      assert forall i :: 0 <= i < |rest| ==> priced[i] == rest[i] && models[front[i]] == init[front[i]];
      at := front + if |priced| > |rest| then [|models| - 1] else [];
    }
  }

  lemma OneProviderAsListed(providers: seq<Provider>, p: Provider)
    ensures AsListed(PricedModels(p.name, p.models), providers + [p])
  {
    var at := PricedModelsAsListed(p.name, p.models);
    var all, b := providers + [p], |providers|;
    var priced := PricedModels(p.name, p.models);
    assert all[b] == p;
    forall i | 0 <= i < |priced| ensures Listed(all, priced[i].candidate) {
      assert all[b].models[at[i]] == priced[i].candidate.model;
    }
    forall i, j | 0 <= i < j < |priced| ensures ListedBefore(all, priced[i].candidate, priced[j].candidate) {
      assert all[b].models[at[i]] == priced[i].candidate.model && all[b].models[at[j]] == priced[j].candidate.model;
    }
  }

  lemma {:induction false} PricedCandidatesAsListed(providers: seq<Provider>, logs: Logs, cfg: Breaker, now: real)
    ensures AsListed(PricedCandidates(providers, logs, cfg, now), providers)
  {
    if providers != [] {
      var init, p := providers[..|providers| - 1], providers[|providers| - 1];
      PricedCandidatesAsListed(init, logs, cfg, now);
      OneProviderAsListed(init, p);
      assert init + [p] == providers;
      var rest, more := PricedCandidates(init, logs, cfg, now),
        if Up(logs, cfg, p.name, now) then PricedModels(p.name, p.models) else [];
      JoinedAsListed(rest, more, init, p);
    }
  }

  lemma JoinedAsListed(rest: seq<Priced>, more: seq<Priced>, providers: seq<Provider>, p: Provider)
    requires AsListed(rest, providers) && (more == [] || more == PricedModels(p.name, p.models))
    ensures AsListed(rest + more, providers + [p])
  {
    OneProviderAsListed(providers, p);
    var at := PricedModelsAsListed(p.name, p.models);
    var priced := rest + more;
    forall i | 0 <= i < |priced| ensures Listed(providers + [p], priced[i].candidate) {
      if i < |rest| {
        ListedLonger(providers, p, rest[i].candidate, rest[i].candidate);
      } else {
        assert priced[i] == more[i - |rest|];
      }
    }
    forall i, j | 0 <= i < j < |priced| ensures ListedBefore(providers + [p], priced[i].candidate, priced[j].candidate) {
      if j < |rest| {
        ListedLonger(providers, p, rest[i].candidate, rest[j].candidate);
      } else if i < |rest| {
        ListedEarlier(providers, p, rest[i].candidate, at[j - |rest|]);
      } else {
        assert priced[i] == more[i - |rest|] && priced[j] == more[j - |rest|];
      }
    }
  }

  /** At equal prices whoever comes earlier was listed earlier. */
  ghost predicate TiesAsListed(sorted: seq<Priced>, providers: seq<Provider>) {
    forall i, j :: 0 <= i < j < |sorted| && sorted[i].price == sorted[j].price ==>
      ListedBefore(providers, sorted[i].candidate, sorted[j].candidate)
  }

  lemma {:induction false} InsertMembers(sorted: seq<Priced>, x: Priced, y: Priced)
    ensures y in Insert(sorted, x) <==> y in sorted || y == x
  {
    if sorted != [] && sorted[|sorted| - 1].price > x.price {
      InsertMembers(sorted[..|sorted| - 1], x, y);
    }
  }

  lemma {:induction false} InsertKeepsTies(sorted: seq<Priced>, x: Priced, providers: seq<Provider>)
    requires TiesAsListed(sorted, providers)
    requires forall y :: y in sorted ==> ListedBefore(providers, y.candidate, x.candidate)
    ensures TiesAsListed(Insert(sorted, x), providers)
  {
    if sorted != [] && sorted[|sorted| - 1].price > x.price {
      var init, last := sorted[..|sorted| - 1], sorted[|sorted| - 1];
      InsertKeepsTies(init, x, providers);
      var front := Insert(init, x);
      forall i | 0 <= i < |front| && front[i].price == last.price
        ensures ListedBefore(providers, front[i].candidate, last.candidate)
      {
        InsertMembers(init, x, front[i]);
        var k :| 0 <= k < |init| && init[k] == front[i];
        assert sorted[k] == front[i] && sorted[|sorted| - 1] == last;
      }
    }
  }

  lemma {:induction false} InitAsListed(s: seq<Priced>, providers: seq<Provider>)
    requires s != [] && AsListed(s, providers)
    ensures AsListed(s[..|s| - 1], providers)
  {
  }

  lemma {:induction false} SortKeepsTies(s: seq<Priced>, providers: seq<Provider>)
    requires AsListed(s, providers)
    ensures TiesAsListed(StableSort(s), providers)
  {
    if s != [] {
      var init, last := s[..|s| - 1], s[|s| - 1];
      InitAsListed(s, providers);
      SortKeepsTies(init, providers);
      forall y | y in StableSort(init) ensures ListedBefore(providers, y.candidate, last.candidate) {
        SortKeepsMembers(init, y);
        var k :| 0 <= k < |init| && init[k] == y;
        assert s[k] == y;
      }
      InsertKeepsTies(StableSort(init), last, providers);
    }
  }

  /** The provider is up and lists this model, which has this input price. */
  ghost predicate OffersAt(providers: seq<Provider>, logs: Logs, cfg: Breaker, now: real, c: Candidate, price: nat) {
    exists p ::
      && p in providers && p.name == c.provider && Up(logs, cfg, p.name, now) && c.model in p.models
      && Lookup(PRICING, c.model).Some? && Lookup(PRICING, c.model).value.input == price
  }

  lemma OffersAreCandidates(providers: seq<Provider>, logs: Logs, cfg: Breaker, now: real, x: Priced)
    ensures x in StableSort(PricedCandidates(providers, logs, cfg, now))
       <==> OffersAt(providers, logs, cfg, now, x.candidate, x.price)
  {
    PricedCandidatesAreExact(providers, logs, cfg, now, x);
    SortKeepsMembers(PricedCandidates(providers, logs, cfg, now), x);
    forall p | p in providers
      ensures x in PricedModels(p.name, p.models) <==>
        && x.candidate.provider == p.name && x.candidate.model in p.models
        && Lookup(PRICING, x.candidate.model).Some? && Lookup(PRICING, x.candidate.model).value.input == x.price
    {
      PricedModelsAreExact(p.name, p.models, x);
    }
  }

  lemma {:induction false} RisingIndices(s: seq<Priced>, top: nat, i: nat, j: nat)
    requires Rising(s, top) && i <= j < |s|
    ensures s[i].price <= s[j].price <= top
  {
    if j < |s| - 1 {
      RisingIndices(s[..|s| - 1], s[|s| - 1].price, i, j);
    } else if i < j {
      RisingIndices(s[..|s| - 1], s[|s| - 1].price, i, j - 1);
    }
  }

  lemma RankedInOrder(providers: seq<Provider>, logs: Logs, cfg: Breaker, now: real, i: nat, j: nat)
    requires i < j < |StableSort(PricedCandidates(providers, logs, cfg, now))|
    ensures var ranked := StableSort(PricedCandidates(providers, logs, cfg, now));
      || ranked[i].price < ranked[j].price
      || (ranked[i].price == ranked[j].price && ListedBefore(providers, ranked[i].candidate, ranked[j].candidate))
  {
    var priced := PricedCandidates(providers, logs, cfg, now);
    SortRising(priced);
    PricedCandidatesAsListed(providers, logs, cfg, now);
    SortKeepsTies(priced, providers);
    RisingIndices(StableSort(priced), Highest(priced), i, j);
  }

  lemma OfferIsRanked(providers: seq<Provider>, logs: Logs, cfg: Breaker, now: real, c: Candidate, price: nat)
    returns (k: nat)
    requires OffersAt(providers, logs, cfg, now, c, price)
    ensures var ranked := StableSort(PricedCandidates(providers, logs, cfg, now));
      k < |ranked| && ranked[k] == Priced(price, c) && ranked[0].price <= price
  {
    var priced := PricedCandidates(providers, logs, cfg, now);
    var ranked := StableSort(priced);
    OffersAreCandidates(providers, logs, cfg, now, Priced(price, c));
    k :| k < |ranked| && ranked[k] == Priced(price, c);
    SortRising(priced);
    RisingIndices(ranked, Highest(priced), 0, k);
  }

  /**
   * "cheapest" and "fastest": the chain and the input prices along it. Every candidate is a priced
   * model of a provider that is up, prices never fall, and at equal prices the order is that of
   * registration and of each provider's list. With fallback every such model is there; without, at
   * most one. In both cases nothing that could be asked costs less than the head.
   */
  lemma CheapestResolution(
      providers: seq<Provider>, logs: Logs, cfg: Breaker, model: string, fallback: bool, now: real)
    returns (chain: seq<Candidate>, prices: seq<nat>)
    requires model == "cheapest" || model == "fastest"
    ensures chain == ResolveChain(providers, logs, cfg, model, fallback, now) && |prices| == |chain|
    ensures forall i :: 0 <= i < |chain| ==> OffersAt(providers, logs, cfg, now, chain[i], prices[i])
    ensures forall i, j :: 0 <= i < j < |chain| ==>
      prices[i] < prices[j] || (prices[i] == prices[j] && ListedBefore(providers, chain[i], chain[j]))
    ensures fallback ==> forall c, price :: OffersAt(providers, logs, cfg, now, c, price) ==> c in chain
    ensures !fallback ==> |chain| <= 1
    ensures forall c, price :: OffersAt(providers, logs, cfg, now, c, price) ==> chain != [] && prices[0] <= price
  {
    var ranked := StableSort(PricedCandidates(providers, logs, cfg, now));
    chain := ResolveChain(providers, logs, cfg, model, fallback, now);
    prices := seq(|chain|, i requires 0 <= i < |ranked| => ranked[i].price);
    forall i | 0 <= i < |chain| ensures OffersAt(providers, logs, cfg, now, chain[i], prices[i]) {
      assert ranked[i] in ranked;
      OffersAreCandidates(providers, logs, cfg, now, ranked[i]);
    }
    forall i, j | 0 <= i < j < |chain|
      ensures prices[i] < prices[j] || (prices[i] == prices[j] && ListedBefore(providers, chain[i], chain[j]))
    {
      RankedInOrder(providers, logs, cfg, now, i, j);
    }
    forall c, price | OffersAt(providers, logs, cfg, now, c, price)
      ensures chain != [] && prices[0] <= price && (fallback ==> c in chain)
    {
      var k := OfferIsRanked(providers, logs, cfg, now, c, price);
      assert Candidates(ranked)[k] == c;
    }
  }
}
