/**
 * The provider registry and the request router over it. The registry keeps one circuit
 * breaker per provider; its ghost `logs` are what the breakers have been told.
 */
module Registry {
  import opened CircuitBreakers
  import opened Policies
  import opened RouterSpec

  /** The breaker is consistent, was configured like this, and has been told exactly this log. */
  ghost predicate Tracks(b: CircuitBreaker, log: seq<Outcome>, cfg: Breaker, now: real)
    reads b
  {
    && b.Valid() && b.log == log && b.clock <= now
    && b.failureThreshold == cfg.failureThreshold && b.recoverySeconds == cfg.recoverySeconds
  }

  /** Assigning to a key of an insertion-ordered dictionary. */
  function Registered(providers: seq<Provider>, p: Provider): seq<Provider> {
    if providers == [] then [p]
    else if providers[0].name == p.name then [p] + providers[1..]
    else [providers[0]] + Registered(providers[1..], p)
  }

  lemma {:induction false} RegisteredNames(providers: seq<Provider>, p: Provider)
    requires DistinctNames(providers)
    ensures DistinctNames(Registered(providers, p))
    ensures forall q :: q in Registered(providers, p) ==> q.name == p.name || q in providers
  {
    if providers != [] && providers[0].name != p.name {
      RegisteredNames(providers[1..], p);
    }
  }

  /** A new name joins at the end; a known one is replaced where it stands. */
  lemma {:induction false} RegisteredPlace(providers: seq<Provider>, p: Provider)
    requires DistinctNames(providers)
    ensures (forall q :: q in providers ==> q.name != p.name) ==> Registered(providers, p) == providers + [p]
    ensures forall i :: 0 <= i < |providers| && providers[i].name == p.name ==> Registered(providers, p) == providers[i := p]
  {
    if providers != [] && providers[0].name != p.name {
      RegisteredPlace(providers[1..], p);
      forall i | 0 <= i < |providers| && providers[i].name == p.name ensures Registered(providers, p) == providers[i := p] {
        assert providers[1..][i - 1] == providers[i];
        assert providers[i := p] == [providers[0]] + providers[1..][i - 1 := p];
      }
      assert providers == [providers[0]] + providers[1..];
    }
  }

  class ProviderRegistry {
    const cfg: Breaker
    var providers: seq<Provider>
    var breakers: map<string, CircuitBreaker>

    ghost var logs: Logs
    ghost var repr: set<CircuitBreaker>
    ghost var owner: map<CircuitBreaker, string>
    ghost var clock: real

    ghost predicate Valid()
      reads this, repr
    {
      && DistinctNames(providers)
      && (forall n :: n in logs <==> n in breakers)
      && (forall n :: n in breakers ==> breakers[n] in repr && Tracks(breakers[n], logs[n], cfg, clock))
      && (forall n :: n in breakers ==> breakers[n] in owner && owner[breakers[n]] == n)
    }

    constructor (cfg: Breaker, ghost now: real)
      ensures Valid() && this.cfg == cfg && clock == now && repr == {}
      ensures providers == [] && logs == map[]
    {
      this.cfg := cfg;
      providers, breakers, logs := [], map[], map[];
      repr, owner, clock := {}, map[], now;
    }

    /** A provider under a new name joins at the end; one under a known name takes that place. Its breaker is new. */
    method Register(p: Provider)
      requires Valid()
      modifies this
      ensures Valid() && fresh(repr - old(repr)) && repr >= old(repr) && clock == old(clock)
      ensures providers == Registered(old(providers), p) && logs == old(logs)[p.name := []]
      ensures (forall q :: q in old(providers) ==> q.name != p.name) ==> providers == old(providers) + [p]
      ensures forall i :: 0 <= i < |old(providers)| && old(providers)[i].name == p.name ==> providers == old(providers)[i := p]
    {
      var b := new CircuitBreaker(cfg.failureThreshold, cfg.recoverySeconds, clock);
      assert forall n :: n in breakers ==> breakers[n] != b && Tracks(breakers[n], logs[n], cfg, clock);
      RegisteredNames(providers, p);
      RegisteredPlace(providers, p);
      providers := Registered(providers, p);
      breakers := breakers[p.name := b];
      logs := logs[p.name := []];
      repr, owner := repr + {b}, owner[b := p.name];
    }

    /** Writes a provider's new log down after its breaker changed. */
    ghost method Commit(name: string, log: seq<Outcome>, now: real)
      requires DistinctNames(providers) && forall n :: n in logs <==> n in breakers
      requires clock <= now
      requires forall n :: n in breakers && n != name ==> breakers[n] in repr && Tracks(breakers[n], logs[n], cfg, clock)
      requires forall n :: n in breakers ==> breakers[n] in owner && owner[breakers[n]] == n
      requires name in breakers && breakers[name] in repr && Tracks(breakers[name], log, cfg, now)
      modifies this`logs, this`clock
      ensures Valid() && clock == now
      ensures logs == old(logs)[name := log]
    {
      logs := logs[name := log];
      clock := now;
    }

    /** Whether the registry has the provider and its breaker lets a call through now. */
    method Ask(name: string, now: real) returns (up: bool)
      requires Valid() && clock <= now
      modifies this, repr
      ensures Valid() && clock == now && repr == old(repr)
      ensures providers == old(providers) && logs == old(logs)
      ensures up == Up(logs, cfg, name, now)
      ensures up <==> name in logs && (Tripped(logs[name], cfg.failureThreshold) ==>
        now - logs[name][|logs[name]| - 1].at >= cfg.recoverySeconds as real)
    {
      if name !in breakers {
        clock := now;
        return false;
      }
      up := breakers[name].Allow(now);
      assert logs[name := logs[name]] == logs;
      Commit(name, logs[name], now);
    }

    /** Tells a provider's breaker how a call ended; failures carry the time they were seen. */
    method Tell(r: Report)
      requires Valid() && (r.outcome.Failure? ==> clock <= r.outcome.at)
      modifies this, repr
      ensures Valid() && repr == old(repr)
      ensures clock == if r.outcome.Failure? && r.provider in old(logs) then r.outcome.at else old(clock)
      ensures providers == old(providers) && logs == Record(old(logs), r)
      ensures r.provider !in old(logs) ==> logs == old(logs)
      ensures r.provider in old(logs) ==> logs == old(logs)[r.provider := old(logs)[r.provider] + [r.outcome]]
    {
      if r.provider in breakers {
        var b := breakers[r.provider];
        ghost var log := logs[r.provider] + [r.outcome];
        match r.outcome {
          case Success => b.RecordSuccess();
          case Failure(at) => b.RecordFailure(at);
        }
        Commit(r.provider, log, if r.outcome.Failure? then r.outcome.at else clock);
      }
    }
  }
}
