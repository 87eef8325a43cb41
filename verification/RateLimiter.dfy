/**
 * The in-memory sliding-window limiter. The two deques of a window are pruned lazily;
 * the ghost logs keep every admission and every charge, and `Valid` says that the deques
 * are those logs filtered by the last cutoff.
 */
module RateLimiter {
  import opened Windows

  type TenantId = string

  datatype LimitDecision = Allowed | Denied(retryAfter: real)

  /** What an RPM check at time `now` answers, as a function of the full admission log. */
  function RpmDecision(admissions: seq<real>, now: real, rpmLimit: int): LimitDecision
    requires rpmLimit >= 1
  {
    var recent := Since(admissions, now - WINDOW);
    if |recent| >= rpmLimit then Denied(Max(0.0, WINDOW - (now - recent[0]))) else Allowed
  }

  /** What a TPM check at time `now` answers, as a function of the full charge log. */
  function TpmDecision(charges: seq<Charge>, now: real, tpmLimit: int): LimitDecision {
    var recent := ChargesSince(charges, now - WINDOW);
    if Total(recent) >= tpmLimit then
      Denied(if recent == [] then 0.0 else Max(0.0, WINDOW - (now - recent[0].at)))
    else Allowed
  }

  /** A request is refused exactly when the 60 seconds up to now already hold the limit of admissions. */
  lemma RefusedIffWindowFull(admissions: seq<real>, now: real, rpmLimit: int)
    requires rpmLimit >= 1 && Past(admissions, now)
    ensures RpmDecision(admissions, now, rpmLimit).Denied? <==> CountBetween(admissions, now - 60.0, now) >= rpmLimit
  {
    PastIndices(admissions, now);
    CountIsWindow(admissions, now - 60.0, now);
  }

  /** Tokens refuse exactly when those charged in the 60 seconds up to now have reached the limit. */
  lemma RefusedIffTokensSpent(charges: seq<Charge>, now: real, tpmLimit: int)
    requires PastCharges(charges, now)
    ensures TpmDecision(charges, now, tpmLimit).Denied? <==> UsedBetween(charges, now - 60.0, now) >= tpmLimit
  {
    PastChargesIndices(charges, now);
    UsedIsWindow(charges, now - 60.0, now);
  }

  /** The tokens of all events, added up in order. */
  method SumTokens(events: seq<Charge>) returns (used: int)
    ensures used == Total(events)
  {
    used := 0;
    for i := 0 to |events|
      invariant used == Total(events[..i])
    {
      assert events[..i + 1] == events[..i] + [events[i]];
      TotalAppend(events[..i], events[i]);
      used := used + events[i].tokens;
    }
    assert events[..|events|] == events;
  }

  class SlidingWindow {
    var timestamps: seq<real>
    var tokenEvents: seq<Charge>

    ghost var admissions: seq<real>
    ghost var charges: seq<Charge>
    ghost var horizon: real
    ghost var clock: real

    ghost predicate Valid()
      reads this
    {
      && horizon + WINDOW <= clock
      && Past(admissions, clock)
      && PastCharges(charges, clock)
      && timestamps == Since(admissions, horizon)
      && tokenEvents == ChargesSince(charges, horizon)
    }

    constructor (now: real)
      ensures Valid() && clock == now
      ensures admissions == [] && charges == []
    {
      timestamps, tokenEvents := [], [];
      admissions, charges := [], [];
      horizon, clock := now - WINDOW, now;
    }

    /** Pops both deques until their heads are inside the window. */
    method Prune(now: real)
      requires Valid() && clock <= now
      modifies this
      ensures Valid() && clock == now
      ensures admissions == old(admissions) && charges == old(charges)
      ensures timestamps == Since(admissions, now - WINDOW)
      ensures tokenEvents == ChargesSince(charges, now - WINDOW)
    {
      PruneTimestamps(now - WINDOW);
      PruneTokenEvents(now - WINDOW);
      horizon, clock := now - WINDOW, now;
    }

    method PruneTimestamps(cutoff: real)
      requires Past(admissions, clock) && timestamps == Since(admissions, horizon) && horizon <= cutoff
      modifies this`timestamps
      ensures timestamps == Since(admissions, cutoff)
    {
      ghost var before, i := timestamps, 0;
      while timestamps != [] && timestamps[0] < cutoff
        invariant i <= |before| && timestamps == before[i..]
        invariant forall j :: 0 <= j < i ==> before[j] < cutoff
        decreases |timestamps|
      {
        timestamps := timestamps[1..];
        i := i + 1;
      }
      PoppedSince(admissions, horizon, cutoff, clock, before, i);
    }

    method PruneTokenEvents(cutoff: real)
      requires PastCharges(charges, clock) && tokenEvents == ChargesSince(charges, horizon) && horizon <= cutoff
      modifies this`tokenEvents
      ensures tokenEvents == ChargesSince(charges, cutoff)
    {
      ghost var before, i := tokenEvents, 0;
      while tokenEvents != [] && tokenEvents[0].at < cutoff
        invariant i <= |before| && tokenEvents == before[i..]
        invariant forall j :: 0 <= j < i ==> before[j].at < cutoff
        decreases |tokenEvents|
      {
        tokenEvents := tokenEvents[1..];
        i := i + 1;
      }
      PoppedChargesSince(charges, horizon, cutoff, clock, before, i);
    }

    method CheckRequest(rpmLimit: int, now: real) returns (d: LimitDecision)
      requires Valid() && clock <= now && rpmLimit >= 1
      modifies this
      ensures Valid() && clock == now
      ensures d == RpmDecision(old(admissions), now, rpmLimit)
      ensures d.Denied? <==> CountBetween(old(admissions), now - 60.0, now) >= rpmLimit
      ensures admissions == if d.Allowed? then old(admissions) + [now] else old(admissions)
      ensures charges == old(charges)
    {
      Prune(now);
      RefusedIffWindowFull(admissions, now, rpmLimit);
      if |timestamps| >= rpmLimit {
        return Denied(Max(0.0, WINDOW - (now - timestamps[0])));
      }
      SinceAppend(admissions, now, horizon);
      PastAppend(admissions, clock, now);
      timestamps := timestamps + [now];
      admissions := admissions + [now];
      d := Allowed;
    }

    method CheckTokens(tpmLimit: int, now: real) returns (d: LimitDecision)
      requires Valid() && clock <= now
      modifies this
      ensures Valid() && clock == now
      ensures d == TpmDecision(charges, now, tpmLimit)
      ensures d.Denied? <==> UsedBetween(charges, now - 60.0, now) >= tpmLimit
      ensures admissions == old(admissions) && charges == old(charges)
    {
      Prune(now);
      RefusedIffTokensSpent(charges, now, tpmLimit);
      var used := SumTokens(tokenEvents);
      if used >= tpmLimit {
        return Denied(if tokenEvents == [] then 0.0 else Max(0.0, WINDOW - (now - tokenEvents[0].at)));
      }
      d := Allowed;
    }

    method RecordTokens(tokens: int, now: real)
      requires Valid() && clock <= now && tokens > 0
      modifies this
      ensures Valid() && clock == now
      ensures admissions == old(admissions)
      ensures charges == old(charges) + [Charge(now, tokens)]
    {
      Prune(now);
      ChargesSinceAppend(charges, Charge(now, tokens), horizon);
      PastChargesAppend(charges, clock, Charge(now, tokens));
      tokenEvents := tokenEvents + [Charge(now, tokens)];
      charges := charges + [Charge(now, tokens)];
    }
  }

  /** Everything ever admitted for a tenant and everything ever charged to it. */
  datatype Ledger = Ledger(admissions: seq<real>, charges: seq<Charge>)

  function AfterRequest(l: Ledger, d: LimitDecision, now: real): Ledger {
    if d.Allowed? then l.(admissions := l.admissions + [now]) else l
  }

  function AfterTokens(l: Ledger, tokens: int, now: real): Ledger {
    if tokens > 0 then l.(charges := l.charges + [Charge(now, tokens)]) else l
  }

  lemma UpdateTwice<K, V>(m: map<K, V>, k: K, u: V, v: V)
    ensures m[k := u][k := v] == m[k := v]
  {
  }

  function LedgerOf(ledgers: map<TenantId, Ledger>, tenant: TenantId): Ledger {
    if tenant in ledgers then ledgers[tenant] else Ledger([], [])
  }

  /** The window is consistent and keeps exactly this ledger. */
  ghost predicate Keeps(w: SlidingWindow, ledger: Ledger, now: real)
    reads w
  {
    w.Valid() && w.clock <= now && ledger == Ledger(w.admissions, w.charges)
  }

  class InMemoryRateLimiter {
    var windows: map<TenantId, SlidingWindow>

    ghost var ledgers: map<TenantId, Ledger>
    ghost var repr: set<SlidingWindow>
    ghost var owner: map<SlidingWindow, TenantId>
    ghost var clock: real

    ghost predicate Valid()
      reads this, repr
    {
      && (forall t :: t in ledgers <==> t in windows)
      && (forall t :: t in windows ==> windows[t] in repr && Keeps(windows[t], ledgers[t], clock))
      && (forall t :: t in windows ==> windows[t] in owner && owner[windows[t]] == t)
    }

    constructor (ghost now: real)
      ensures Valid() && clock == now && repr == {}
      ensures ledgers == map[]
    {
      windows, ledgers := map[], map[];
      repr, owner := {}, map[];
      clock := now;
    }

    /** Nothing in a tenant's ledger lies in the future. */
    lemma LedgerIsPast(tenant: TenantId)
      requires Valid()
      ensures Past(LedgerOf(ledgers, tenant).admissions, clock)
      ensures PastCharges(LedgerOf(ledgers, tenant).charges, clock)
    {
      if tenant in windows {
        assert Keeps(windows[tenant], ledgers[tenant], clock);
        PastLater(ledgers[tenant].admissions, windows[tenant].clock, clock);
      }
    }

    /** Enters a new, empty window for a tenant that has none. */
    method Enter(tenant: TenantId, w: SlidingWindow)
      requires Valid() && tenant !in windows && w !in repr
      requires Keeps(w, Ledger([], []), clock)
      modifies this`windows, this`ledgers, this`repr, this`owner
      ensures Valid() && repr == old(repr) + {w}
      ensures windows == old(windows)[tenant := w]
      ensures ledgers == old(ledgers)[tenant := Ledger([], [])]
    {
      windows := windows[tenant := w];
      ledgers := ledgers[tenant := Ledger([], [])];
      repr, owner := repr + {w}, owner[w := tenant];
    }

    /** The tenant's window, created empty on first use. */
    method WindowOf(tenant: TenantId, now: real) returns (w: SlidingWindow)
      requires Valid() && clock <= now
      modifies this
      ensures Valid() && clock == now && fresh(repr - old(repr)) && repr >= old(repr)
      ensures tenant in windows && windows[tenant] == w
      ensures ledgers == if tenant in old(ledgers) then old(ledgers) else old(ledgers)[tenant := Ledger([], [])]
      ensures ledgers == old(ledgers)[tenant := LedgerOf(old(ledgers), tenant)]
    {
      clock := now;
      if tenant in windows {
        w := windows[tenant];
        assert ledgers[tenant := ledgers[tenant]] == ledgers;
      } else {
        w := new SlidingWindow(now);
        Enter(tenant, w);
      }
    }

    /** Writes the tenant's new ledger down after its window changed. */
    ghost method Commit(tenant: TenantId, after: Ledger)
      requires forall t :: t in ledgers <==> t in windows
      requires forall t :: t in windows && t != tenant ==> windows[t] in repr && Keeps(windows[t], ledgers[t], clock)
      requires forall t :: t in windows ==> windows[t] in owner && owner[windows[t]] == t
      requires tenant in windows && windows[tenant] in repr && Keeps(windows[tenant], after, clock)
      modifies this`ledgers
      ensures Valid()
      ensures ledgers == old(ledgers)[tenant := after]
    {
      ledgers := ledgers[tenant := after];
    }

    /** The check on a tenant's own window. */
    method CheckWindow(tenant: TenantId, w: SlidingWindow, rpmLimit: int, now: real) returns (d: LimitDecision)
      requires Valid() && clock == now && rpmLimit >= 1 && tenant in windows && windows[tenant] == w
      modifies w, this`ledgers
      ensures Valid()
      ensures d == RpmDecision(old(ledgers)[tenant].admissions, now, rpmLimit)
      ensures ledgers == old(ledgers)[tenant := AfterRequest(old(ledgers)[tenant], d, now)]
    {
      assert Keeps(w, ledgers[tenant], clock);
      d := w.CheckRequest(rpmLimit, now);
      ghost var after := AfterRequest(ledgers[tenant], d, now);
      assert Keeps(w, after, clock);
      assert forall t :: t in windows && t != tenant ==> Keeps(windows[t], ledgers[t], clock);
      Commit(tenant, after);
    }

    method CheckRequest(tenant: TenantId, rpmLimit: int, now: real) returns (d: LimitDecision)
      requires Valid() && clock <= now && rpmLimit >= 1
      modifies this, repr
      ensures Valid() && clock == now && fresh(repr - old(repr)) && repr >= old(repr)
      ensures var l := if tenant in old(ledgers) then old(ledgers)[tenant] else Ledger([], []);
        && d == RpmDecision(l.admissions, now, rpmLimit)
        && (d.Denied? <==> CountBetween(l.admissions, now - 60.0, now) >= rpmLimit)
        && ledgers == old(ledgers)[tenant := if d.Allowed? then Ledger(l.admissions + [now], l.charges) else l]
    {
      ghost var before := LedgerOf(ledgers, tenant);
      LedgerIsPast(tenant);
      PastLater(before.admissions, clock, now);
      RefusedIffWindowFull(before.admissions, now, rpmLimit);
      var w := WindowOf(tenant, now);
      d := CheckWindow(tenant, w, rpmLimit, now);
      UpdateTwice(old(ledgers), tenant, before, AfterRequest(before, d, now));
    }

    method CheckTokens(tenant: TenantId, tpmLimit: int, now: real) returns (d: LimitDecision)
      requires Valid() && clock <= now
      modifies this, repr
      ensures Valid() && clock == now && fresh(repr - old(repr)) && repr >= old(repr)
      ensures var l := if tenant in old(ledgers) then old(ledgers)[tenant] else Ledger([], []);
        && d == TpmDecision(l.charges, now, tpmLimit)
        && (d.Denied? <==> UsedBetween(l.charges, now - 60.0, now) >= tpmLimit)
        && ledgers == old(ledgers)[tenant := l]
    {
      var w := WindowOf(tenant, now);
      d := w.CheckTokens(tpmLimit, now);
    }

    /** The charge to a tenant's own window. */
    method ChargeWindow(tenant: TenantId, w: SlidingWindow, tokens: int, now: real)
      requires Valid() && clock == now && tokens > 0 && tenant in windows && windows[tenant] == w
      modifies w, this`ledgers
      ensures Valid()
      ensures ledgers == old(ledgers)[tenant := AfterTokens(old(ledgers)[tenant], tokens, now)]
    {
      assert Keeps(w, ledgers[tenant], clock);
      w.RecordTokens(tokens, now);
      ghost var after := AfterTokens(ledgers[tenant], tokens, now);
      assert Keeps(w, after, clock);
      assert forall t :: t in windows && t != tenant ==> Keeps(windows[t], ledgers[t], clock);
      Commit(tenant, after);
    }

    /** A call that used no tokens leaves no charge. */
    method RecordTokens(tenant: TenantId, tokens: int, now: real)
      requires Valid() && clock <= now
      modifies this, repr
      ensures Valid() && clock <= now && fresh(repr - old(repr)) && repr >= old(repr)
      ensures tokens <= 0 ==> ledgers == old(ledgers)
      ensures tokens > 0 ==>
        var l := if tenant in old(ledgers) then old(ledgers)[tenant] else Ledger([], []);
        ledgers == old(ledgers)[tenant := Ledger(l.admissions, l.charges + [Charge(now, tokens)])]
    {
      if tokens <= 0 {
        return;
      }
      ghost var before := LedgerOf(ledgers, tenant);
      var w := WindowOf(tenant, now);
      ChargeWindow(tenant, w, tokens, now);
      UpdateTwice(old(ledgers), tenant, before, AfterTokens(before, tokens, now));
    }
  }
}
