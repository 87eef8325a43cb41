/**
 * Monthly budgets. A small TTL cache holds each tenant's month-to-date cost; a check reads
 * through it and every recorded spend is added to it. Money is in whole micro-dollars.
 */
module Budgets {
  import opened Windows

  /** A usage row of the current month. */
  datatype Row = Row(tenant: string, cost: nat)

  /** What the usage table says a tenant has spent. */
  function Spent(rows: seq<Row>, tenant: string): nat {
    if rows == [] then 0
    else
      var last := rows[|rows| - 1];
      var here := if last.tenant == tenant then last.cost else 0;
      Spent(rows[..|rows| - 1], tenant) + here
  }

  datatype BudgetDecision = BudgetDecision(allowed: bool, spent: int, budget: Option<int>)

  /** The decision for a tenant whose spend is known. */
  function Decide(budget: Option<int>, spent: int): BudgetDecision {
    if budget.None? || budget.value <= 0 then BudgetDecision(true, 0, budget)
    else BudgetDecision(spent < budget.value, spent, budget)
  }

  datatype Entry = Entry(cost: int, expiresAt: real)

  predicate Live(data: map<string, Entry>, tenant: string, now: real) {
    tenant in data && data[tenant].expiresAt >= now
  }

  /** Every live cached value is the tenant's row sum. */
  ghost predicate Agrees(data: map<string, Entry>, rows: seq<Row>, now: real) {
    forall tenant :: Live(data, tenant, now) ==> data[tenant].cost == Spent(rows, tenant)
  }

  class MtdCostCache {
    const ttl: real
    var data: map<string, Entry>

    constructor (ttl: real)
      ensures this.ttl == ttl && data == map[]
    {
      this.ttl, data := ttl, map[];
    }

    method Get(tenant: string, now: real) returns (r: Option<int>)
      ensures r == if Live(data, tenant, now) then Some(data[tenant].cost) else None
      ensures r.Some? <==> tenant in data && data[tenant].expiresAt >= now
      ensures r.Some? ==> r.value == data[tenant].cost
    {
      if tenant !in data {
        return None;
      }
      var entry := data[tenant];
      if entry.expiresAt < now {
        return None;
      }
      r := Some(entry.cost);
    }

    method Set(tenant: string, cost: int, now: real)
      modifies this
      ensures data == old(data)[tenant := Entry(cost, now + ttl)]
    {
      data := data[tenant := Entry(cost, now + ttl)];
    }

    method Invalidate(tenant: string)
      modifies this
      ensures data == old(data) - {tenant}
    {
      data := data - {tenant};
    }

    method Clear()
      modifies this
      ensures data == map[]
    {
      data := map[];
    }
  }

  /** The part of the check after the table was read: caches what was read, and decides by it. */
  method FillAndDecide(cache: MtdCostCache, tenant: string, budget: int, read: int, now: real)
    returns (d: BudgetDecision)
    requires budget >= 1
    modifies cache
    ensures cache.data == old(cache.data)[tenant := Entry(read, now + cache.ttl)]
    ensures d == Decide(Some(budget), read)
    ensures (d.allowed <==> read < budget) && d.spent == read && d.budget == Some(budget)
  {
    cache.Set(tenant, read, now);
    d := BudgetDecision(read < budget, read, Some(budget));
  }

  /**
   * The check, with the table read and the cache fill in one piece. Whatever the cache held,
   * the answer is the one the table itself gives.
   */
  method CheckBudget(cache: MtdCostCache, rows: seq<Row>, tenant: string, budget: Option<int>, now: real)
    returns (d: BudgetDecision)
    requires Agrees(cache.data, rows, now)
    modifies cache
    ensures Agrees(cache.data, rows, now)
    ensures d == Decide(budget, Spent(rows, tenant))
    ensures d.allowed <==> budget.None? || budget.value <= 0 || Spent(rows, tenant) < budget.value
    ensures d.spent == (if budget.None? || budget.value <= 0 then 0 else Spent(rows, tenant)) && d.budget == budget
    ensures budget.None? || budget.value <= 0 ==> cache.data == old(cache.data)
  {
    if budget.None? || budget.value <= 0 {
      return BudgetDecision(true, 0, budget);
    }
    var cached := cache.Get(tenant, now);
    if cached.None? {
      d := FillAndDecide(cache, tenant, budget.value, Spent(rows, tenant), now);
      return;
    }
    if cached.value >= budget.value {
      return BudgetDecision(false, cached.value, budget);
    }
    d := BudgetDecision(true, cached.value, budget);
  }

  /** The cached values after a spend: only a live value grows. */
  function AfterSpend(data: map<string, Entry>, tenant: string, cost: int, now: real, ttl: real): map<string, Entry> {
    if cost > 0 && Live(data, tenant, now) then data[tenant := Entry(data[tenant].cost + cost, now + ttl)] else data
  }

  /** Adds to a live cached value, and starts its lifetime anew; does nothing when there is none. */
  method RecordSpend(cache: MtdCostCache, tenant: string, cost: int, now: real)
    modifies cache
    ensures cache.data == AfterSpend(old(cache.data), tenant, cost, now, cache.ttl)
    ensures var data := old(cache.data);
      if cost > 0 && tenant in data && data[tenant].expiresAt >= now
      then cache.data == data[tenant := Entry(data[tenant].cost + cost, now + cache.ttl)]
      else cache.data == data
  {
    if cost <= 0 {
      return;
    }
    var current := cache.Get(tenant, now);
    if current.None? {
      return;
    }
    cache.Set(tenant, current.value + cost, now);
  }

  lemma {:induction false} SpentAppend(rows: seq<Row>, row: Row, tenant: string)
    ensures Spent([], tenant) == 0
    ensures Spent(rows + [row], tenant) == Spent(rows, tenant) + if row.tenant == tenant then row.cost else 0
  {
    assert (rows + [row])[..|rows|] == rows;
  }

  /** A row and its spend keep cache and table in agreement. */
  lemma {:induction false} SpendWithRowAgrees(data: map<string, Entry>, rows: seq<Row>, row: Row, now: real, ttl: real)
    requires Agrees(data, rows, now)
    ensures Agrees(AfterSpend(data, row.tenant, row.cost, now, ttl), rows + [row], now)
  {
    var data' := AfterSpend(data, row.tenant, row.cost, now, ttl);
    forall tenant | Live(data', tenant, now) ensures data'[tenant].cost == Spent(rows + [row], tenant) {
      SpentAppend(rows, row, tenant);
      assert Live(data, tenant, now);
    }
  }

  /** A spend whose row was lost keeps agreement only when it costs nothing or meets no live value. */
  lemma {:induction false} SpendWithoutRowAgreesIff(data: map<string, Entry>, rows: seq<Row>, row: Row, now: real, ttl: real)
    requires Agrees(data, rows, now) && ttl >= 0.0
    ensures Agrees(AfterSpend(data, row.tenant, row.cost, now, ttl), rows, now)
       <==> row.cost == 0 || !Live(data, row.tenant, now)
  {
    var data' := AfterSpend(data, row.tenant, row.cost, now, ttl);
    if row.cost > 0 && Live(data, row.tenant, now) {
      assert Live(data', row.tenant, now);
    }
  }

  /**
   * Inserting the row (`stored` is false when that failed, which is ignored) and recording the spend in one
   * piece keeps cache and table in agreement exactly when the row was written or the spend changed no value.
   */
  method InsertAndSpend(cache: MtdCostCache, rows: seq<Row>, row: Row, stored: bool, now: real)
    returns (after: seq<Row>)
    requires Agrees(cache.data, rows, now) && cache.ttl >= 0.0
    modifies cache
    ensures after == if stored then rows + [row] else rows
    ensures cache.data == AfterSpend(old(cache.data), row.tenant, row.cost, now, cache.ttl)
    ensures Agrees(cache.data, after, now) <==> stored || row.cost == 0 || !Live(old(cache.data), row.tenant, now)
  {
    after := rows;
    if stored {
      after := after + [row];
    }
    SpendWithRowAgrees(cache.data, rows, row, now, cache.ttl);
    SpendWithoutRowAgreesIff(cache.data, rows, row, now, cache.ttl);
    if row.cost != 0 {
      RecordSpend(cache, row.tenant, row.cost, now);
    }
  }

  /** Agreement survives the passing of time: entries only expire. */
  lemma {:induction false} AgreesLater(data: map<string, Entry>, rows: seq<Row>, now: real, later: real)
    requires Agrees(data, rows, now) && now <= later
    ensures Agrees(data, rows, later)
  {
    forall tenant | Live(data, tenant, later) ensures data[tenant].cost == Spent(rows, tenant) {
      assert Live(data, tenant, now);
    }
  }
}

/** Overspending with several requests in flight, and what happens when check and record are not atomic. */
module BudgetRuns {
  import opened Windows
  import opened Traces
  import opened Shares
  import opened Budgets

  // ---------- at most k in flight ----------

  /** A request is admitted on a spend that is off by `error`; it finishes with a cost or is abandoned. */
  datatype FlightStep = Admit(error: int) | Finish(cost: nat) | Abandon

  datatype Flight = Flight(spent: int, inFlight: nat)

  function FlightAfter(s: Flight, step: FlightStep): Flight {
    match step
    case Admit(_) => s.(inFlight := s.inFlight + 1)
    case Finish(cost) => Flight(s.spent + cost, if s.inFlight > 0 then s.inFlight - 1 else 0)
    case Abandon => s.(inFlight := if s.inFlight > 0 then s.inFlight - 1 else 0)
  }

  function FlightRun(trace: Trace<FlightStep>): Flight {
    match trace
    case Start => Flight(0, 0)
    case Then(before, last) => FlightAfter(FlightRun(before), last)
  }

  /**
   * Only requests that the check allows enter, on a spend off by at most `slack`; only open ones
   * leave; at most `k` are open at once.
   */
  predicate Bounded(trace: Trace<FlightStep>, budget: int, slack: nat, k: nat, most: nat) {
    match trace
    case Start => true
    case Then(before, last) =>
      var s := FlightRun(before);
      && Bounded(before, budget, slack, k, most)
      && (last.Admit? ==>
            -(slack as int) <= last.error <= slack && Decide(Some(budget), s.spent + last.error).allowed && s.inFlight < k)
      && (!last.Admit? ==> s.inFlight > 0)
      && (last.Finish? ==> last.cost <= most)
  }

  /** Nothing but the check, the number in flight and their size stops a step. */
  lemma FlightsMayMove(trace: Trace<FlightStep>, budget: int, slack: nat, k: nat, most: nat, error: int, cost: nat)
    requires budget >= 1 && Bounded(trace, budget, slack, k, most)
    ensures var s := FlightRun(trace);
      && (-(slack as int) <= error <= slack && s.spent + error < budget && s.inFlight < k ==>
           Bounded(Then(trace, Admit(error)), budget, slack, k, most))
      && (s.inFlight > 0 ==> Bounded(Then(trace, Abandon), budget, slack, k, most))
      && (s.inFlight > 0 && cost <= most ==>
           && Bounded(Then(trace, Finish(cost)), budget, slack, k, most)
           && FlightRun(Then(trace, Finish(cost))) == Flight(s.spent + cost, s.inFlight - 1))
  {
  }

  lemma {:induction false} SpendIsReserved(trace: Trace<FlightStep>, budget: int, slack: nat, k: nat, most: nat)
    requires budget >= 1 && Bounded(trace, budget, slack, k, most)
    ensures FlightRun(trace).inFlight <= k
    ensures FlightRun(trace).spent + Share(FlightRun(trace).inFlight, most) <= budget - 1 + slack + Share(k, most)
  {
    match trace
    case Start =>
    case Then(before, last) =>
      SpendIsReserved(before, budget, slack, k, most);
      if last.Admit? {
        ShareMonotone(FlightRun(trace).inFlight, k, most);
      }
  }

  /**
   * With at most `k` requests in flight, at most `most` each, and cached spends off by at most `slack`,
   * the spend never reaches budget + slack + k * most; with an exact cache, budget + k * most.
   */
  lemma {:induction false} OverspendIsBounded(trace: Trace<FlightStep>, budget: int, slack: nat, k: nat, most: nat)
    requires budget >= 1 && Bounded(trace, budget, slack, k, most)
    ensures FlightRun(trace).spent < budget + slack + k * most
  {
    SpendIsReserved(trace, budget, slack, k, most);
    ShareIsProduct(k, most);
  }

  /** `n` requests, one after the other, each costing one micro-dollar. */
  lemma {:induction false} SpendOnes(n: nat, budget: int, slack: nat, k: nat, most: nat)
    returns (trace: Trace<FlightStep>)
    requires budget >= 1 && n < budget + slack && k >= 1 && most >= 1
    ensures Bounded(trace, budget, slack, k, most) && FlightRun(trace) == Flight(n, 0)
  {
    if n == 0 {
      trace := Start;
    } else {
      var before := SpendOnes(n - 1, budget, slack, k, most);
      var admitted := Then(before, Admit(-(slack as int)));
      assert FlightRun(admitted) == Flight(n - 1, 1);
      trace := Then(admitted, Finish(1));
    }
  }

  lemma {:induction false} AdmitMany(trace: Trace<FlightStep>, n: nat, budget: int, slack: nat, k: nat, most: nat)
    returns (longer: Trace<FlightStep>)
    requires budget >= 1 && n <= k
    requires Bounded(trace, budget, slack, k, most) && FlightRun(trace) == Flight(budget - 1 + slack, 0)
    ensures Bounded(longer, budget, slack, k, most) && FlightRun(longer) == Flight(budget - 1 + slack, n)
  {
    longer := trace;
    if n > 0 {
      longer := AdmitMany(trace, n - 1, budget, slack, k, most);
      longer := Then(longer, Admit(-(slack as int)));
    }
  }

  lemma {:induction false} FinishMany(trace: Trace<FlightStep>, n: nat, budget: int, slack: nat, k: nat, most: nat)
    returns (longer: Trace<FlightStep>)
    requires Bounded(trace, budget, slack, k, most) && FlightRun(trace).inFlight == n
    ensures Bounded(longer, budget, slack, k, most)
    ensures FlightRun(longer) == Flight(FlightRun(trace).spent + Share(n, most), 0)
    decreases n
  {
    longer := trace;
    if n > 0 {
      longer := FinishMany(Then(trace, Finish(most)), n - 1, budget, slack, k, most);
    }
  }

  /** The bound is attained: use up what can be used, admit `k` together, let each cost `most`. */
  lemma {:induction false} OverspendIsReached(budget: int, slack: nat, k: nat, most: nat)
    returns (trace: Trace<FlightStep>)
    requires budget >= 1 && k >= 1 && most >= 1
    ensures Bounded(trace, budget, slack, k, most)
    ensures FlightRun(trace).spent == budget + slack + k * most - 1
  {
    trace := SpendOnes(budget - 1 + slack, budget, slack, k, most);
    trace := AdmitMany(trace, k, budget, slack, k, most);
    trace := FinishMany(trace, k, budget, slack, k, most);
    ShareIsProduct(k, most);
  }

  lemma {:induction false} NothingToSpend(trace: Trace<FlightStep>, budget: int, slack: nat, k: nat, most: nat)
    requires Bounded(trace, budget, slack, k, most) && (k == 0 || most == 0)
    ensures FlightRun(trace).spent == 0 && (k == 0 ==> FlightRun(trace).inFlight == 0)
  {
    match trace
    case Start =>
    case Then(before, last) => NothingToSpend(before, budget, slack, k, most);
  }

  ghost predicate Attains(trace: Trace<FlightStep>, budget: int, slack: nat, k: nat, most: nat) {
    Bounded(trace, budget, slack, k, most) && FlightRun(trace).spent == budget + slack + k * most - 1
  }

  /** The bound cannot be improved: some run attains it, unless nothing can be spent at all. */
  lemma {:induction false} OverspendIsExact(budget: int, slack: nat, k: nat, most: nat)
    requires budget >= 1
    ensures (exists trace :: Attains(trace, budget, slack, k, most))
       <==> (k >= 1 && most >= 1) || (budget == 1 && slack == 0)
  {
    if k >= 1 && most >= 1 {
      var trace := OverspendIsReached(budget, slack, k, most);
      assert Attains(trace, budget, slack, k, most);
    } else {
      assert k * most == 0;
      forall trace | Attains(trace, budget, slack, k, most) ensures budget == 1 && slack == 0 {
        NothingToSpend(trace, budget, slack, k, most);
      }
      assert budget == 1 && slack == 0 ==> Attains(Start, budget, slack, k, most);
    }
  }

  // ---------- one tenant's cached value when check and record are interleaved ----------

  /**
   * A check reads the table (`Read`) and later fills the cache with what that read saw (`Fill`, which
   * says which read); a finished request inserts its row (`Insert`) and later records the spend
   * (`Spend`); at the start of a month the month-to-date sum begins anew (`Rollover`).
   */
  datatype CostStep =
    | Read(at: real)
    | Fill(read: nat, at: real)
    | Insert(cost: nat, at: real)
    | Spend(cost: nat, at: real)
    | Rollover(at: real)

  /** What had been inserted, recorded, and inserted before the current month when a check read the table. */
  datatype Reading = Reading(rows: nat, recorded: nat, closed: nat)

  /** All costs inserted, all costs recorded, those of closed months, the cache entry, and the reads so far. */
  datatype CostState = CostState(rows: nat, recorded: nat, closed: nat, entry: Option<Entry>, readings: seq<Reading>)

  /** What the table says the tenant has spent this month. */
  function MonthSum(s: CostState): int {
    s.rows - s.closed
  }

  predicate Fresh(entry: Option<Entry>, now: real) {
    entry.Some? && entry.value.expiresAt >= now
  }

  function CostAfter(s: CostState, step: CostStep, ttl: real): CostState {
    match step
    case Read(_) => s.(readings := s.readings + [Reading(s.rows, s.recorded, s.closed)])
    case Fill(read, at) =>
      if read < |s.readings| then s.(entry := Some(Entry(s.readings[read].rows - s.readings[read].closed, at + ttl))) else s
    case Insert(cost, _) => s.(rows := s.rows + cost)
    case Spend(cost, at) =>
      s.(recorded := s.recorded + cost,
         entry := if cost > 0 && Fresh(s.entry, at) then Some(Entry(s.entry.value.cost + cost, at + ttl)) else s.entry)
    case Rollover(_) => s.(closed := s.rows)
  }

  /** The entry a tenant has in the cache. */
  function EntryIn(data: map<string, Entry>, tenant: string): Option<Entry> {
    if tenant in data then Some(data[tenant]) else None
  }

  /** The steps do to the tenant's entry what the code does to the cache. */
  lemma StepsAreThoseOfTheCache(s: CostState, data: map<string, Entry>, tenant: string, cost: nat, read: nat, at: real, ttl: real)
    requires s.entry == EntryIn(data, tenant) && read < |s.readings|
    ensures Fresh(s.entry, at) <==> tenant in data && data[tenant].expiresAt >= at
    ensures CostAfter(s, Spend(cost, at), ttl).entry == EntryIn(AfterSpend(data, tenant, cost, at, ttl), tenant)
    ensures var seen := s.readings[read].rows - s.readings[read].closed;
      CostAfter(s, Fill(read, at), ttl).entry == EntryIn(data[tenant := Entry(seen, at + ttl)], tenant)
  {
  }

  function CostRun(trace: Trace<CostStep>, ttl: real): CostState {
    match trace
    case Start => CostState(0, 0, 0, None, [])
    case Then(before, last) => CostAfter(CostRun(before, ttl), last, ttl)
  }

  /** Steps come in time order, a fill follows its read, and a spend follows its row. */
  predicate Possible(trace: Trace<CostStep>, ttl: real, now: real) {
    match trace
    case Start => true
    case Then(before, last) =>
      && last.at <= now && Possible(before, ttl, last.at)
      && (last.Fill? ==> last.read < |CostRun(before, ttl).readings|)
      && (last.Spend? ==> CostRun(before, ttl).recorded + last.cost <= CostRun(before, ttl).rows)
  }

  /** Nothing but time stops a read, an insert or a turn of the month; a fill needs a read, and a spend its row. */
  lemma StepsMayHappen(trace: Trace<CostStep>, ttl: real, now: real, at: real, read: nat, cost: nat)
    requires Possible(trace, ttl, now) && now <= at
    ensures var s := CostRun(trace, ttl);
      && Possible(Then(trace, Read(at)), ttl, at) && Possible(Then(trace, Insert(cost, at)), ttl, at)
      && Possible(Then(trace, Rollover(at)), ttl, at)
      && (read < |s.readings| ==> Possible(Then(trace, Fill(read, at)), ttl, at))
      && (s.recorded + cost <= s.rows ==> Possible(Then(trace, Spend(cost, at)), ttl, at))
  {
    PossibleLater(trace, ttl, now, at);
  }

  /** Every inserted row has also been recorded. */
  predicate Settled(s: CostState) {
    s.recorded == s.rows
  }

  /** The latest fill: the read it used, and what had been recorded when it filled. */
  datatype LatestFill = NoFill | LatestFill(reading: Reading, recorded: nat)

  function FillOf(trace: Trace<CostStep>, ttl: real): LatestFill {
    match trace
    case Start => NoFill
    case Then(before, last) =>
      var s := CostRun(before, ttl);
      if last.Fill? && last.read < |s.readings| then LatestFill(s.readings[last.read], s.recorded) else FillOf(before, ttl)
  }

  /** Inserted but not yet recorded when the table was read: these costs will be counted twice. */
  function OpenAtRead(fill: LatestFill): int {
    if fill.NoFill? then 0 else fill.reading.rows - fill.reading.recorded
  }

  /** Recorded between the read and the fill: these costs were lost. */
  function RecordedMeanwhile(fill: LatestFill): int {
    if fill.NoFill? then 0 else fill.recorded - fill.reading.recorded
  }

  /** Spent in the months closed since the read: these costs should have been forgotten. */
  function ClosedSince(fill: LatestFill, s: CostState): int {
    if fill.NoFill? then 0 else s.closed - fill.reading.closed
  }

  /** By how much a live value is off between requests. */
  function Error(trace: Trace<CostStep>, ttl: real): int {
    var fill := FillOf(trace, ttl);
    OpenAtRead(fill) - RecordedMeanwhile(fill) + ClosedSince(fill, CostRun(trace, ttl))
  }

  /** A reading never runs ahead of the state. */
  predicate Behind(r: Reading, s: CostState) {
    r.recorded <= r.rows && r.recorded <= s.recorded && r.closed <= s.closed
  }

  lemma {:induction false} ReadingsAreBehind(trace: Trace<CostStep>, ttl: real, now: real)
    requires Possible(trace, ttl, now)
    ensures var s := CostRun(trace, ttl);
      && s.recorded <= s.rows && s.closed <= s.rows
      && (forall i :: 0 <= i < |s.readings| ==> Behind(s.readings[i], s))
  {
    match trace
    case Start =>
    case Then(before, last) =>
      ReadingsAreBehind(before, ttl, last.at);
      var s, s' := CostRun(before, ttl), CostRun(trace, ttl);
      forall i | 0 <= i < |s'.readings| ensures Behind(s'.readings[i], s') {
        assert i < |s.readings| ==> Behind(s.readings[i], s);
      }
  }

  /** None of the three parts of the error is ever negative. */
  lemma {:induction false} ErrorPartsAreCosts(trace: Trace<CostStep>, ttl: real, now: real)
    requires Possible(trace, ttl, now)
    ensures var fill := FillOf(trace, ttl);
      OpenAtRead(fill) >= 0 && RecordedMeanwhile(fill) >= 0 && ClosedSince(fill, CostRun(trace, ttl)) >= 0
  {
    match trace
    case Start =>
    case Then(before, last) =>
      ErrorPartsAreCosts(before, ttl, last.at);
      ReadingsAreBehind(before, ttl, last.at);
      var s := CostRun(before, ttl);
      assert last.Fill? ==> Behind(s.readings[last.read], s);
  }

  /**
   * Under every interleaving a live value plus what is still unrecorded is the month's sum plus the
   * error of the latest fill, however old that fill is.
   */
  lemma {:induction false} ErrorIsKept(trace: Trace<CostStep>, ttl: real, now: real)
    requires Possible(trace, ttl, now) && Fresh(CostRun(trace, ttl).entry, now)
    ensures FillOf(trace, ttl).LatestFill?
    ensures var s := CostRun(trace, ttl);
      s.entry.value.cost + (s.rows - s.recorded) == MonthSum(s) + Error(trace, ttl)
  {
    match trace
    case Start =>
    case Then(before, last) =>
      if !last.Fill? && Fresh(CostRun(before, ttl).entry, last.at) {
        ErrorIsKept(before, ttl, last.at);
      }
  }

  /**
   * Between requests a live value agrees with the table exactly when the costs open at its read, together
   * with those of months closed since, make up for the costs recorded between its read and its fill.
   */
  lemma {:induction false} AgreesIffErrorsCancel(trace: Trace<CostStep>, ttl: real, now: real)
    requires Possible(trace, ttl, now) && Fresh(CostRun(trace, ttl).entry, now) && Settled(CostRun(trace, ttl))
    ensures var s, fill := CostRun(trace, ttl), FillOf(trace, ttl);
      s.entry.value.cost == MonthSum(s) <==> OpenAtRead(fill) + ClosedSince(fill, s) == RecordedMeanwhile(fill)
  {
    ErrorIsKept(trace, ttl, now);
  }

  /** Reading and filling in one piece while no request is between insert and spend makes no error. */
  lemma {:induction false} AtomicCheckMakesNoError(trace: Trace<CostStep>, at: real, ttl: real)
    requires Settled(CostRun(trace, ttl))
    ensures Error(Then(Then(trace, Read(at)), Fill(|CostRun(trace, ttl).readings|, at)), ttl) == 0
  {
    var read := Then(trace, Read(at));
    var filled := Then(read, Fill(|CostRun(trace, ttl).readings|, at));
    assert CostRun(filled, ttl).closed == CostRun(read, ttl).closed == CostRun(trace, ttl).closed;
  }

  /** A new month forgets nothing: a value that was right is off by the whole old sum, and still live. */
  lemma {:induction false} RolloverKeepsTheOldSum(trace: Trace<CostStep>, ttl: real, now: real)
    requires Possible(trace, ttl, now) && Fresh(CostRun(trace, ttl).entry, now)
    ensures var s, s' := CostRun(trace, ttl), CostRun(Then(trace, Rollover(now)), ttl);
      && Possible(Then(trace, Rollover(now)), ttl, now)
      && s'.entry == s.entry && MonthSum(s') == 0
      && Error(Then(trace, Rollover(now)), ttl) == Error(trace, ttl) + MonthSum(s)
  {
    ErrorIsKept(trace, ttl, now);
  }

  // ---------- how long a value lives ----------

  /** When the latest fill happened, and every positive spend after it. */
  function Touches(trace: Trace<CostStep>): seq<real> {
    match trace
    case Start => []
    case Then(_, Fill(_, at)) => [at]
    case Then(before, Spend(cost, at)) =>
      if cost > 0 && Touches(before) != [] then Touches(before) + [at] else Touches(before)
    case Then(before, _) => Touches(before)
  }

  /** No two neighbours are more than `ttl` apart. */
  predicate Linked(times: seq<real>, ttl: real) {
    |times| <= 1 || (times[|times| - 1] - times[|times| - 2] <= ttl && Linked(times[..|times| - 1], ttl))
  }

  lemma {:induction false} LinkedAppend(times: seq<real>, t: real, ttl: real)
    requires times != []
    ensures Linked(times + [t], ttl) <==> Linked(times, ttl) && t - times[|times| - 1] <= ttl
  {
    assert (times + [t])[..|times|] == times;
  }

  /** The entry expires one lifetime after the last touch while the touches are linked, and is dead once they are not. */
  ghost predicate Clocked(touches: seq<real>, entry: Option<Entry>, ttl: real, now: real) {
    && (entry.Some? <==> touches != [])
    && (touches != [] ==>
          var last := touches[|touches| - 1];
          && last <= now
          && (if Linked(touches, ttl) then entry.value.expiresAt == last + ttl else entry.value.expiresAt < last))
  }

  lemma {:induction false} EntryIsClocked(trace: Trace<CostStep>, ttl: real, now: real)
    requires Possible(trace, ttl, now)
    ensures Clocked(Touches(trace), CostRun(trace, ttl).entry, ttl, now)
  {
    match trace
    case Start =>
    case Then(before, last) =>
      EntryIsClocked(before, ttl, last.at);
      if last.Spend? && last.cost > 0 && Touches(before) != [] {
        LinkedAppend(Touches(before), last.at, ttl);
      }
  }

  /** A value is live exactly when the fill, the positive spends since, and now follow each other within a lifetime. */
  lemma {:induction false} LiveIffSpendsBridge(trace: Trace<CostStep>, ttl: real, now: real)
    requires Possible(trace, ttl, now)
    ensures Fresh(CostRun(trace, ttl).entry, now) <==> Touches(trace) != [] && Linked(Touches(trace) + [now], ttl)
  {
    EntryIsClocked(trace, ttl, now);
    if Touches(trace) != [] {
      LinkedAppend(Touches(trace), now, ttl);
    }
  }

  /** A value outlives its fill by more than the lifetime exactly when positive spends bridge the gap. */
  lemma {:induction false} OutlivesItsFillIff(trace: Trace<CostStep>, ttl: real, now: real)
    requires Possible(trace, ttl, now) && Touches(trace) != [] && now > Touches(trace)[0] + ttl
    ensures Fresh(CostRun(trace, ttl).entry, now) <==> |Touches(trace)| >= 2 && Linked(Touches(trace) + [now], ttl)
  {
    LiveIffSpendsBridge(trace, ttl, now);
    LinkedAppend(Touches(trace), now, ttl);
  }

  // ---------- what goes wrong, and for how long ----------

  /** A request that completes between a check's read and its fill is lost: the tenant is over budget and admitted. */
  lemma {:induction false} LateFillLosesASpend(budget: int, ttl: real) returns (trace: Trace<CostStep>)
    requires budget >= 1 && ttl >= 0.0
    ensures Possible(trace, ttl, 0.0) && Fresh(CostRun(trace, ttl).entry, 0.0) && Settled(CostRun(trace, ttl))
    ensures Decide(Some(budget), CostRun(trace, ttl).entry.value.cost).allowed
    ensures !Decide(Some(budget), MonthSum(CostRun(trace, ttl))).allowed
  {
    var seen := [Reading(0, 0, 0)];
    var read := Then(Start, Read(0.0));
    assert CostRun(read, ttl) == CostState(0, 0, 0, None, seen);
    var inserted := Then(read, Insert(budget, 0.0));
    assert CostRun(inserted, ttl) == CostState(budget, 0, 0, None, seen);
    var spent := Then(inserted, Spend(budget, 0.0));
    assert CostRun(spent, ttl) == CostState(budget, budget, 0, None, seen);
    assert Possible(read, ttl, 0.0);
    assert Possible(inserted, ttl, 0.0);
    assert Possible(spent, ttl, 0.0);
    trace := Then(spent, Fill(0, 0.0));
  }

  /** A check between a request's insert and its spend counts it twice: the tenant is within budget and refused. */
  lemma {:induction false} EarlyFillCountsTwice(budget: int, ttl: real) returns (trace: Trace<CostStep>)
    requires budget >= 2 && ttl >= 0.0
    ensures Possible(trace, ttl, 0.0) && Fresh(CostRun(trace, ttl).entry, 0.0) && Settled(CostRun(trace, ttl))
    ensures !Decide(Some(budget), CostRun(trace, ttl).entry.value.cost).allowed
    ensures Decide(Some(budget), MonthSum(CostRun(trace, ttl))).allowed
  {
    var cost := budget - 1;
    var seen := [Reading(cost, 0, 0)];
    var inserted := Then(Start, Insert(cost, 0.0));
    assert CostRun(inserted, ttl) == CostState(cost, 0, 0, None, []);
    var read := Then(inserted, Read(0.0));
    assert CostRun(read, ttl) == CostState(cost, 0, 0, None, seen);
    var filled := Then(read, Fill(0, 0.0));
    assert CostRun(filled, ttl) == CostState(cost, 0, 0, Some(Entry(cost, ttl)), seen);
    assert Possible(inserted, ttl, 0.0);
    assert Possible(read, ttl, 0.0);
    assert Possible(filled, ttl, 0.0);
    trace := Then(filled, Spend(cost, 0.0));
    assert CostRun(trace, ttl) == CostState(cost, cost, 0, Some(Entry(2 * cost, ttl)), seen);
  }

  function Later(start: real, gap: real, n: nat): real {
    if n == 0 then start else Later(start, gap, n - 1) + gap
  }

  lemma {:induction false} LaterIsProduct(start: real, gap: real, n: nat)
    ensures Later(start, gap, n) == start + n as real * gap
  {
    if n > 0 {
      LaterIsProduct(start, gap, n - 1);
      assert (n - 1) as real * gap + gap == n as real * gap;
    }
  }

  /** Settled, live at `now`, and not yet due to expire for another lifetime. */
  ghost predicate Armed(trace: Trace<CostStep>, ttl: real, now: real) {
    && Possible(trace, ttl, now) && Settled(CostRun(trace, ttl))
    && CostRun(trace, ttl).entry.Some? && CostRun(trace, ttl).entry.value.expiresAt >= now + ttl
  }

  function Off(s: CostState): int
    requires s.entry.Some?
  {
    s.entry.value.cost - MonthSum(s)
  }

  lemma {:induction false} SteadyTraffic(trace: Trace<CostStep>, ttl: real, now: real, n: nat, cost: nat)
    returns (longer: Trace<CostStep>)
    requires Armed(trace, ttl, now) && ttl >= 0.0 && cost > 0
    ensures Armed(longer, ttl, Later(now, ttl, n))
    ensures Off(CostRun(longer, ttl)) == Off(CostRun(trace, ttl))
  {
    longer := trace;
    if n > 0 {
      longer := SteadyTraffic(trace, ttl, now, n - 1, cost);
      longer := OneMoreRequest(longer, ttl, Later(now, ttl, n - 1), cost);
    }
  }

  lemma {:induction false} OneMoreRequest(trace: Trace<CostStep>, ttl: real, now: real, cost: nat)
    returns (longer: Trace<CostStep>)
    requires Armed(trace, ttl, now) && ttl >= 0.0 && cost > 0
    ensures Armed(longer, ttl, now + ttl)
    ensures Off(CostRun(longer, ttl)) == Off(CostRun(trace, ttl))
  {
    var s := CostRun(trace, ttl);
    var inserted := Then(trace, Insert(cost, now + ttl));
    assert CostRun(inserted, ttl) == s.(rows := s.rows + cost);
    PossibleLater(trace, ttl, now, now + ttl);
    assert Possible(inserted, ttl, now + ttl);
    longer := Then(inserted, Spend(cost, now + ttl));
  }

  lemma {:induction false} PossibleLater(trace: Trace<CostStep>, ttl: real, now: real, later: real)
    requires Possible(trace, ttl, now) && now <= later
    ensures Possible(trace, ttl, later)
  {
  }

  /** Steady traffic bridges any number of lifetimes, and the value stays wrong by as much as it was. */
  lemma {:induction false} SteadyTrafficKeepsTheError(
      trace: Trace<CostStep>, ttl: real, now: real, n: nat, cost: nat) returns (longer: Trace<CostStep>)
    requires Armed(trace, ttl, now) && ttl >= 0.0 && cost > 0
    ensures Armed(longer, ttl, now + n as real * ttl)
    ensures Off(CostRun(longer, ttl)) == Off(CostRun(trace, ttl))
  {
    longer := SteadyTraffic(trace, ttl, now, n, cost);
    LaterIsProduct(now, ttl, n);
  }

  /** A month's sum, cached right at its end, is still added to the next month's after any number of lifetimes. */
  lemma {:induction false} OldMonthLivesOn(trace: Trace<CostStep>, ttl: real, now: real, n: nat, cost: nat)
    returns (longer: Trace<CostStep>)
    requires Armed(trace, ttl, now) && Off(CostRun(trace, ttl)) == 0 && ttl >= 0.0 && cost > 0
    ensures Armed(longer, ttl, now + n as real * ttl)
    ensures Off(CostRun(longer, ttl)) == MonthSum(CostRun(trace, ttl))
  {
    longer := Then(trace, Rollover(now));
    longer := SteadyTrafficKeepsTheError(longer, ttl, now, n, cost);
  }
}
