/**
 * Provider chains: which (provider, model) pairs a request may be sent to, and in which order.
 */
module Policies {
  import opened Windows
  import opened Pricing
  import opened CircuitBreakers

  datatype Provider = Provider(
    name: string, supports: string -> bool, models: seq<string>, defaultModel: Option<string>)

  datatype Breaker = Breaker(failureThreshold: int, recoverySeconds: int)

  datatype Candidate = Candidate(provider: string, model: string)

  /** A candidate with the input price it is ranked by. */
  datatype Priced = Priced(price: nat, candidate: Candidate)

  type Logs = map<string, seq<Outcome>>

  const ALIASES: set<string> := {"auto", "cheapest", "fastest"}

  /** The registry knows the provider and its breaker lets a call through. */
  predicate Up(logs: Logs, cfg: Breaker, provider: string, now: real) {
    provider in logs && Admits(logs[provider], cfg.failureThreshold, cfg.recoverySeconds, now)
  }

  // ---------- the candidates of each policy ----------

  function ConcreteChain(providers: seq<Provider>, logs: Logs, cfg: Breaker, model: string, now: real): seq<Candidate> {
    if providers == [] then []
    else
      var p := providers[|providers| - 1];
      ConcreteChain(providers[..|providers| - 1], logs, cfg, model, now)
      + if p.supports(model) && Up(logs, cfg, p.name, now) then [Candidate(p.name, model)] else []
  }

  /** A provider's default model: the configured one, or else its first model; an empty name is no model. */
  function DefaultOf(p: Provider): Option<string> {
    if p.defaultModel.Some? && p.defaultModel.value != "" then p.defaultModel
    else if p.models != [] && p.models[0] != "" then Some(p.models[0])
    else None
  }

  function AutoChain(providers: seq<Provider>, logs: Logs, cfg: Breaker, now: real): seq<Candidate> {
    if providers == [] then []
    else
      var p := providers[|providers| - 1];
      AutoChain(providers[..|providers| - 1], logs, cfg, now)
      + if Up(logs, cfg, p.name, now) && DefaultOf(p).Some? then [Candidate(p.name, DefaultOf(p).value)] else []
  }

  function PricedModels(provider: string, models: seq<string>): seq<Priced> {
    if models == [] then []
    else
      var m := models[|models| - 1];
      PricedModels(provider, models[..|models| - 1])
      + if Lookup(PRICING, m).Some? then [Priced(Lookup(PRICING, m).value.input, Candidate(provider, m))] else []
  }

  function PricedCandidates(providers: seq<Provider>, logs: Logs, cfg: Breaker, now: real): seq<Priced> {
    if providers == [] then []
    else
      var p := providers[|providers| - 1];
      PricedCandidates(providers[..|providers| - 1], logs, cfg, now)
      + if Up(logs, cfg, p.name, now) then PricedModels(p.name, p.models) else []
  }

  function Candidates(priced: seq<Priced>): (chain: seq<Candidate>)
    ensures |chain| == |priced|
    ensures forall i :: 0 <= i < |priced| ==> chain[i] == priced[i].candidate
  {
    if priced == [] then []
    else Candidates(priced[..|priced| - 1]) + [priced[|priced| - 1].candidate]
  }

  function FullChain(providers: seq<Provider>, logs: Logs, cfg: Breaker, model: string, now: real): seq<Candidate> {
    if model !in ALIASES then ConcreteChain(providers, logs, cfg, model, now)
    else if model == "auto" then AutoChain(providers, logs, cfg, now)
    else Candidates(StableSort(PricedCandidates(providers, logs, cfg, now)))
  }

  /** The chain for a request; without fallback only its head is kept. */
  function ResolveChain(
      providers: seq<Provider>, logs: Logs, cfg: Breaker, model: string, fallback: bool, now: real): seq<Candidate>
  {
    var chain := FullChain(providers, logs, cfg, model, now);
    if fallback || chain == [] then chain else [chain[0]]
  }

  // ---------- stable sorting by price ----------

  function Insert(sorted: seq<Priced>, x: Priced): seq<Priced> {
    if sorted == [] then [x]
    else
      var last := sorted[|sorted| - 1];
      if last.price <= x.price then sorted + [x] else Insert(sorted[..|sorted| - 1], x) + [last]
  }

  function StableSort(s: seq<Priced>): seq<Priced> {
    if s == [] then [] else Insert(StableSort(s[..|s| - 1]), s[|s| - 1])
  }

  /** Prices never fall along the sequence, and the last one is at most `top`. */
  predicate Rising(s: seq<Priced>, top: nat) {
    s == [] || (s[|s| - 1].price <= top && Rising(s[..|s| - 1], s[|s| - 1].price))
  }

  /** The elements with one price, in the order they have in the sequence. */
  function AtPrice(s: seq<Priced>, price: nat): seq<Priced> {
    if s == [] then []
    else AtPrice(s[..|s| - 1], price) + if s[|s| - 1].price == price then [s[|s| - 1]] else []
  }

  lemma AtPriceAppend(s: seq<Priced>, x: Priced, price: nat)
    ensures AtPrice(s + [x], price) == AtPrice(s, price) + if x.price == price then [x] else []
  {
    assert (s + [x])[..|s|] == s;
  }

  lemma {:induction false} RisingHigher(s: seq<Priced>, top: nat, top': nat)
    requires Rising(s, top) && top <= top'
    ensures Rising(s, top')
  {
  }

  lemma {:induction false} InsertRising(sorted: seq<Priced>, x: Priced, top: nat)
    requires Rising(sorted, top) && x.price <= top
    ensures Rising(Insert(sorted, x), top)
  {
    if sorted != [] {
      var init, last := sorted[..|sorted| - 1], sorted[|sorted| - 1];
      if last.price <= x.price {
        assert (sorted + [x])[..|sorted|] == sorted;
      } else {
        InsertRising(init, x, last.price);
        assert (Insert(init, x) + [last])[..|Insert(init, x)|] == Insert(init, x);
      }
    }
  }

  lemma {:induction false} InsertIsStable(sorted: seq<Priced>, x: Priced, top: nat, price: nat)
    requires Rising(sorted, top)
    ensures AtPrice(Insert(sorted, x), price) == AtPrice(sorted, price) + if x.price == price then [x] else []
  {
    if sorted == [] {
      AtPriceAppend([], x, price);
      assert [] + [x] == [x];
    } else {
      var init, last := sorted[..|sorted| - 1], sorted[|sorted| - 1];
      if last.price <= x.price {
        AtPriceAppend(sorted, x, price);
      } else {
        InsertIsStable(init, x, last.price, price);
        AtPriceAppend(Insert(init, x), last, price);
      }
    }
  }

  function Highest(s: seq<Priced>): nat {
    if s == [] then 0
    else if Highest(s[..|s| - 1]) >= s[|s| - 1].price then Highest(s[..|s| - 1]) else s[|s| - 1].price
  }

  lemma {:induction false} SortRising(s: seq<Priced>)
    ensures Rising(StableSort(s), Highest(s))
  {
    if s != [] {
      SortRising(s[..|s| - 1]);
      RisingHigher(StableSort(s[..|s| - 1]), Highest(s[..|s| - 1]), Highest(s));
      InsertRising(StableSort(s[..|s| - 1]), s[|s| - 1], Highest(s));
    }
  }

  /** The sort keeps, at every price, exactly the candidates it was given and their order. */
  lemma {:induction false} SortIsStable(s: seq<Priced>, price: nat)
    ensures AtPrice(StableSort(s), price) == AtPrice(s, price)
  {
    if s != [] {
      SortIsStable(s[..|s| - 1], price);
      SortRising(s[..|s| - 1]);
      InsertIsStable(StableSort(s[..|s| - 1]), s[|s| - 1], Highest(s[..|s| - 1]), price);
    }
  }

  lemma {:induction false} AboveTop(s: seq<Priced>, top: nat, price: nat)
    requires Rising(s, top) && price > top
    ensures AtPrice(s, price) == []
  {
    if s != [] {
      AboveTop(s[..|s| - 1], s[|s| - 1].price, price);
    }
  }

  /** Sorted order and per-price order together leave only one sequence. */
  lemma {:induction false} StableOrderIsUnique(s: seq<Priced>, t: seq<Priced>, top: nat)
    requires Rising(s, top) && Rising(t, top)
    requires forall price :: AtPrice(s, price) == AtPrice(t, price)
    ensures s == t
  {
    if s != [] || t != [] {
      assert s != [] ==> AtPrice(s, s[|s| - 1].price) == AtPrice(t, s[|s| - 1].price);
      assert t != [] ==> AtPrice(s, t[|t| - 1].price) == AtPrice(t, t[|t| - 1].price);
      assert s != [] && t != [];
      var x, y := s[|s| - 1], t[|t| - 1];
      LastPriceAgrees(s, t, top);
      LastPriceAgrees(t, s, top);
      assert AtPrice(s, x.price) == AtPrice(t, x.price);
      assert x == AtPrice(s, x.price)[|AtPrice(s, x.price)| - 1];
      var s', t' := s[..|s| - 1], t[..|t| - 1];
      forall price ensures AtPrice(s', price) == AtPrice(t', price) {
        assert AtPrice(s, price) == AtPrice(t, price);
        if price == x.price {
          assert AtPrice(s', price) == AtPrice(s, price)[..|AtPrice(s, price)| - 1];
          assert AtPrice(t', price) == AtPrice(t, price)[..|AtPrice(t, price)| - 1];
        } else {
          assert AtPrice(s', price) + [] == AtPrice(s', price);
          assert AtPrice(t', price) + [] == AtPrice(t', price);
        }
      }
      StableOrderIsUnique(s', t', x.price);
      assert s == s' + [x] && t == t' + [y];
    }
  }

  lemma LastPriceAgrees(s: seq<Priced>, t: seq<Priced>, top: nat)
    requires Rising(s, top) && Rising(t, top) && s != [] && t != []
    requires forall price :: AtPrice(s, price) == AtPrice(t, price)
    ensures s[|s| - 1].price <= t[|t| - 1].price
  {
    if s[|s| - 1].price > t[|t| - 1].price {
      assert AtPrice(s, s[|s| - 1].price) == AtPrice(t, s[|s| - 1].price);
      AboveTop(t, t[|t| - 1].price, s[|s| - 1].price);
      assert false;
    }
  }

  /** `StableSort` is the only price-sorted arrangement that keeps the order within each price. */
  lemma SortIsTheStableOrder(s: seq<Priced>, t: seq<Priced>, top: nat)
    requires Rising(t, top) && forall price :: AtPrice(t, price) == AtPrice(s, price)
    ensures t == StableSort(s)
  {
    forall price ensures AtPrice(StableSort(s), price) == AtPrice(t, price) {
      SortIsStable(s, price);
      assert AtPrice(t, price) == AtPrice(s, price);
    }
    SortRising(s);
    var bound := if top >= Highest(s) then top else Highest(s);
    RisingHigher(t, top, bound);
    RisingHigher(StableSort(s), Highest(s), bound);
    StableOrderIsUnique(t, StableSort(s), bound);
  }

  // ---------- what the chains contain ----------

  ghost predicate AllUp(chain: seq<Candidate>, logs: Logs, cfg: Breaker, now: real) {
    forall c :: c in chain ==> Up(logs, cfg, c.provider, now)
  }

  ghost predicate DistinctProviders(chain: seq<Candidate>) {
    forall i, j :: 0 <= i < j < |chain| ==> chain[i].provider != chain[j].provider
  }

  ghost predicate DistinctNames(providers: seq<Provider>) {
    forall i, j :: 0 <= i < j < |providers| ==> providers[i].name != providers[j].name
  }

  /** The candidate is a provider of the list that supports the model and is up. */
  ghost predicate Serves(providers: seq<Provider>, logs: Logs, cfg: Breaker, c: Candidate, now: real) {
    exists p :: p in providers && p.name == c.provider && p.supports(c.model) && Up(logs, cfg, p.name, now)
  }

  /** A concrete chain holds exactly the supporting providers that are up, each once, all with that model. */
  lemma {:induction false} ConcreteChainIsExact(
      providers: seq<Provider>, logs: Logs, cfg: Breaker, model: string, now: real)
    requires DistinctNames(providers)
    ensures var chain := ConcreteChain(providers, logs, cfg, model, now);
      && AllUp(chain, logs, cfg, now)
      && DistinctProviders(chain)
      && (forall c :: c in chain <==> c.model == model && Serves(providers, logs, cfg, c, now))
  {
    var chain := ConcreteChain(providers, logs, cfg, model, now);
    if providers != [] {
      var init, p := providers[..|providers| - 1], providers[|providers| - 1];
      ConcreteChainIsExact(init, logs, cfg, model, now);
      assert forall q :: q in providers <==> q in init || q == p;
      var rest := ConcreteChain(init, logs, cfg, model, now);
      forall c | c in rest ensures c.provider != p.name {
        var q :| q in init && q.name == c.provider;
      }
      forall c ensures c in chain <==> c.model == model && Serves(providers, logs, cfg, c, now) {
        if c in chain && c !in rest {
          assert p in providers;
        }
      }
    }
  }

  lemma {:induction false} AutoChainIsExact(providers: seq<Provider>, logs: Logs, cfg: Breaker, now: real)
    requires DistinctNames(providers)
    ensures var chain := AutoChain(providers, logs, cfg, now);
      && AllUp(chain, logs, cfg, now)
      && DistinctProviders(chain)
      && (forall c :: c in chain <==>
           exists p :: p in providers && p.name == c.provider && DefaultOf(p) == Some(c.model) && Up(logs, cfg, p.name, now))
  {
    var chain := AutoChain(providers, logs, cfg, now);
    if providers != [] {
      var init, p := providers[..|providers| - 1], providers[|providers| - 1];
      AutoChainIsExact(init, logs, cfg, now);
      assert forall q :: q in providers <==> q in init || q == p;
      var rest := AutoChain(init, logs, cfg, now);
      forall c | c in rest ensures c.provider != p.name {
        var q :| q in init && q.name == c.provider;
      }
    }
  }

  lemma {:induction false} PricedModelsAreExact(provider: string, models: seq<string>, x: Priced)
    ensures x in PricedModels(provider, models) <==>
      && x.candidate.provider == provider && x.candidate.model in models
      && Lookup(PRICING, x.candidate.model).Some? && Lookup(PRICING, x.candidate.model).value.input == x.price
  {
    if models != [] {
      PricedModelsAreExact(provider, models[..|models| - 1], x);
    }
  }

  /** The candidates of "cheapest" and "fastest": every priced model of every provider that is up, and nothing else. */
  lemma {:induction false} PricedCandidatesAreExact(
      providers: seq<Provider>, logs: Logs, cfg: Breaker, now: real, x: Priced)
    ensures x in PricedCandidates(providers, logs, cfg, now) <==>
      exists p :: p in providers && Up(logs, cfg, p.name, now) && x in PricedModels(p.name, p.models)
  {
    if providers != [] {
      var init, p := providers[..|providers| - 1], providers[|providers| - 1];
      PricedCandidatesAreExact(init, logs, cfg, now, x);
      assert forall q :: q in providers <==> q in init || q == p;
    }
  }

  lemma {:induction false} AtPriceMembers(s: seq<Priced>, x: Priced)
    ensures x in s <==> x in AtPrice(s, x.price)
  {
    if s != [] {
      AtPriceMembers(s[..|s| - 1], x);
    }
  }

  lemma SortKeepsMembers(s: seq<Priced>, x: Priced)
    ensures x in StableSort(s) <==> x in s
  {
    AtPriceMembers(s, x);
    AtPriceMembers(StableSort(s), x);
    SortIsStable(s, x.price);
  }

  /** Every candidate of every policy was up when the chain was resolved. */
  lemma FullChainIsUp(providers: seq<Provider>, logs: Logs, cfg: Breaker, model: string, now: real)
    requires DistinctNames(providers)
    ensures AllUp(FullChain(providers, logs, cfg, model, now), logs, cfg, now)
  {
    if model !in ALIASES {
      ConcreteChainIsExact(providers, logs, cfg, model, now);
    } else if model == "auto" {
      AutoChainIsExact(providers, logs, cfg, now);
    } else {
      var s := PricedCandidates(providers, logs, cfg, now);
      forall c | c in Candidates(StableSort(s)) ensures Up(logs, cfg, c.provider, now) {
        var i :| 0 <= i < |StableSort(s)| && StableSort(s)[i].candidate == c;
        var x := StableSort(s)[i];
        SortKeepsMembers(s, x);
        PricedCandidatesAreExact(providers, logs, cfg, now, x);
        var p :| p in providers && Up(logs, cfg, p.name, now) && x in PricedModels(p.name, p.models);
        PricedModelsAreExact(p.name, p.models, x);
      }
    }
  }
}
