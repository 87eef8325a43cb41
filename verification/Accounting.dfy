/**
 * What a served request leaves in the books: a charge in the limiter's log, a usage row and the
 * metrics counters, written one after the other with other requests running in between.
 */
module Accounting {
  import opened Windows
  import opened Traces
  import opened RateLimiter
  import Budgets

  /** What one answered request used. */
  datatype Usage = Usage(prompt: nat, completion: nat, cost: Option<nat>) {
    function Total(): nat {
      prompt + completion
    }

    function Cost(): nat {
      if cost.Some? then cost.value else 0
    }
  }

  datatype UsageRow = UsageRow(tenant: TenantId, prompt: nat, completion: nat, total: nat, cost: nat)

  function RowOf(tenant: TenantId, u: Usage): UsageRow {
    UsageRow(tenant, u.prompt, u.completion, u.Total(), u.Cost())
  }

  /** One tenant's counters, summed over all other labels. */
  datatype Counters = Counters(requests: nat, prompt: nat, completion: nat, cost: nat, hits: nat, misses: nat)

  const NOTHING := Counters(0, 0, 0, 0, 0, 0)

  function CountMiss(c: Counters, u: Usage): Counters {
    Counters(c.requests + 1, c.prompt + u.prompt, c.completion + u.completion, c.cost + u.Cost(), c.hits, c.misses + 1)
  }

  /** A hit is one request that used nothing. */
  function CountHit(c: Counters): Counters {
    c.(requests := c.requests + 1, hits := c.hits + 1)
  }

  function RowTokens(rows: seq<UsageRow>): nat {
    if rows == [] then 0 else RowTokens(rows[..|rows| - 1]) + rows[|rows| - 1].total
  }

  function RowPrompts(rows: seq<UsageRow>): nat {
    if rows == [] then 0 else RowPrompts(rows[..|rows| - 1]) + rows[|rows| - 1].prompt
  }

  function RowCompletions(rows: seq<UsageRow>): nat {
    if rows == [] then 0 else RowCompletions(rows[..|rows| - 1]) + rows[|rows| - 1].completion
  }

  function RowCosts(rows: seq<UsageRow>): nat {
    if rows == [] then 0 else RowCosts(rows[..|rows| - 1]) + rows[|rows| - 1].cost
  }

  // ---------- one tenant's books, step by step ----------

  /**
   * How far a request has come; `stored` says whether its usage row was written. The charge may raise, before
   * it took effect or after; the answer is cached by then, but it is not delivered and nothing more is booked.
   */
  datatype Stage =
    | Waiting
    | Failed
    | ServedFromCache
    | Raised(usage: Usage, charged: bool)
    | Charged(usage: Usage)
    | Inserted(usage: Usage, stored: bool)
    | Counted(usage: Usage, stored: bool)

  datatype Books = Books(charges: seq<Charge>, rows: seq<UsageRow>, counters: Counters)

  function AfterCharge(b: Books, u: Usage, at: real): Books {
    if u.Total() > 0 then b.(charges := b.charges + [Charge(at, u.Total())]) else b
  }

  function AfterInsert(b: Books, tenant: TenantId, u: Usage, stored: bool): Books {
    if stored then b.(rows := b.rows + [RowOf(tenant, u)]) else b
  }

  function AfterCount(b: Books, u: Usage): Books {
    b.(counters := CountMiss(b.counters, u))
  }

  function AfterHit(b: Books): Books {
    b.(counters := CountHit(b.counters))
  }

  /** One atomic step of one request; the answer and its usage arrive with `Charge`. */
  datatype BookStep =
    | Arrive
    | Hit(i: nat)
    | Fail(i: nat)
    | Answer(i: nat, usage: Usage, at: real)
    | Raise(i: nat, usage: Usage, at: real, charged: bool)
    | Insert(i: nat, stored: bool)
    | Count(i: nat)

  datatype State = State(stages: seq<Stage>, books: Books)

  predicate Enabled(s: State, step: BookStep) {
    match step
    case Arrive => true
    case Hit(i) => i < |s.stages| && s.stages[i].Waiting?
    case Fail(i) => i < |s.stages| && s.stages[i].Waiting?
    case Answer(i, _, _) => i < |s.stages| && s.stages[i].Waiting?
    case Raise(i, usage, _, _) => i < |s.stages| && s.stages[i].Waiting? && usage.Total() > 0
    case Insert(i, _) => i < |s.stages| && s.stages[i].Charged?
    case Count(i) => i < |s.stages| && s.stages[i].Inserted?
  }

  /** The stage the step's request moves to. */
  function NextStage(s: State, step: BookStep): Stage
    requires Enabled(s, step)
  {
    match step
    case Arrive => Waiting
    case Hit(_) => ServedFromCache
    case Fail(_) => Failed
    case Answer(_, usage, _) => Charged(usage)
    case Raise(_, usage, _, charged) => Raised(usage, charged)
    case Insert(i, stored) => Inserted(s.stages[i].usage, stored)
    case Count(i) => Counted(s.stages[i].usage, s.stages[i].stored)
  }

  function NextBooks(s: State, step: BookStep, tenant: TenantId): Books
    requires Enabled(s, step)
  {
    match step
    case Arrive => s.books
    case Hit(_) => AfterHit(s.books)
    case Fail(_) => s.books
    case Answer(_, usage, at) => AfterCharge(s.books, usage, at)
    case Raise(_, usage, at, charged) => if charged then AfterCharge(s.books, usage, at) else s.books
    case Insert(i, stored) => AfterInsert(s.books, tenant, s.stages[i].usage, stored)
    case Count(i) => AfterCount(s.books, s.stages[i].usage)
  }

  function Next(s: State, step: BookStep, tenant: TenantId): State
    requires Enabled(s, step)
  {
    var stage := NextStage(s, step);
    State(if step.Arrive? then s.stages + [stage] else s.stages[step.i := stage], NextBooks(s, step, tenant))
  }

  const EMPTY := State([], Books([], [], NOTHING))

  /** The state a run leads to, if every step was enabled. */
  function Reached(trace: Trace<BookStep>, tenant: TenantId): Option<State> {
    match trace
    case Start => Some(EMPTY)
    case Then(before, last) =>
      var s := Reached(before, tenant);
      if s.Some? && Enabled(s.value, last) then Some(Next(s.value, last, tenant)) else None
  }

  // ---------- what the stages say the books should hold ----------

  function Sum(stages: seq<Stage>, weight: Stage -> nat): nat {
    if stages == [] then 0 else Sum(stages[..|stages| - 1], weight) + weight(stages[|stages| - 1])
  }

  lemma {:induction false} SumUpdate(stages: seq<Stage>, i: nat, stage: Stage, weight: Stage -> nat)
    requires i < |stages|
    ensures Sum(stages[i := stage], weight) == Sum(stages, weight) - weight(stages[i]) + weight(stage)
  {
    var n := |stages| - 1;
    if i < n {
      SumUpdate(stages[..n], i, stage, weight);
      assert stages[i := stage][..n] == stages[..n][i := stage];
    } else {
      assert stages[i := stage][..n] == stages[..n];
    }
  }

  lemma {:induction false} SumAppend(stages: seq<Stage>, stage: Stage, weight: Stage -> nat)
    ensures Sum(stages + [stage], weight) == Sum(stages, weight) + weight(stage)
  {
    assert (stages + [stage])[..|stages|] == stages;
  }

  /** One step changes a sum by the weight the request gains. */
  lemma {:induction false} SumStep(s: State, step: BookStep, tenant: TenantId, weight: Stage -> nat)
    requires Enabled(s, step) && weight(Waiting) == 0
    ensures Sum(Next(s, step, tenant).stages, weight) == Sum(s.stages, weight)
      + weight(NextStage(s, step)) - (if step.Arrive? then 0 else weight(s.stages[step.i]))
  {
    if step.Arrive? {
      SumAppend(s.stages, Waiting, weight);
    } else {
      SumUpdate(s.stages, step.i, NextStage(s, step), weight);
    }
  }

  function ChargedTokens(stage: Stage): nat {
    if stage.Charged? || stage.Inserted? || stage.Counted? || (stage.Raised? && stage.charged) then stage.usage.Total()
    else 0
  }

  function StoredTokens(stage: Stage): nat {
    if (stage.Inserted? || stage.Counted?) && stage.stored then stage.usage.Total() else 0
  }

  function StoredPrompt(stage: Stage): nat {
    if (stage.Inserted? || stage.Counted?) && stage.stored then stage.usage.prompt else 0
  }

  function StoredCompletion(stage: Stage): nat {
    if (stage.Inserted? || stage.Counted?) && stage.stored then stage.usage.completion else 0
  }

  function StoredCost(stage: Stage): nat {
    if (stage.Inserted? || stage.Counted?) && stage.stored then stage.usage.Cost() else 0
  }

  function StoredRow(stage: Stage): nat {
    if (stage.Inserted? || stage.Counted?) && stage.stored then 1 else 0
  }

  function CountedTokens(stage: Stage): nat {
    if stage.Counted? then stage.usage.Total() else 0
  }

  function CountedPrompt(stage: Stage): nat {
    if stage.Counted? then stage.usage.prompt else 0
  }

  function CountedCompletion(stage: Stage): nat {
    if stage.Counted? then stage.usage.completion else 0
  }

  function CountedCost(stage: Stage): nat {
    if stage.Counted? then stage.usage.Cost() else 0
  }

  function CountedRequest(stage: Stage): nat {
    if stage.Counted? then 1 else 0
  }

  function HitRequest(stage: Stage): nat {
    if stage.ServedFromCache? then 1 else 0
  }

  ghost predicate ChargesMatch(s: State) {
    Windows.Total(s.books.charges) == Sum(s.stages, ChargedTokens)
  }

  ghost predicate RowsMatch(s: State) {
    && RowTokens(s.books.rows) == Sum(s.stages, StoredTokens)
    && RowPrompts(s.books.rows) == Sum(s.stages, StoredPrompt)
    && RowCompletions(s.books.rows) == Sum(s.stages, StoredCompletion)
    && RowCosts(s.books.rows) == Sum(s.stages, StoredCost)
    && |s.books.rows| == Sum(s.stages, StoredRow)
  }

  ghost predicate CountersMatch(s: State) {
    var c := s.books.counters;
    && c.prompt == Sum(s.stages, CountedPrompt)
    && c.completion == Sum(s.stages, CountedCompletion)
    && c.cost == Sum(s.stages, CountedCost)
    && c.misses == Sum(s.stages, CountedRequest)
    && c.hits == Sum(s.stages, HitRequest)
    && c.requests == c.hits + c.misses
  }

  lemma {:induction false} ChargeAddsUp(b: Books, u: Usage, at: real)
    ensures Windows.Total(AfterCharge(b, u, at).charges) == Windows.Total(b.charges) + u.Total()
  {
    TotalAppend(b.charges, Charge(at, u.Total()));
  }

  lemma {:induction false} ChargesStep(s: State, step: BookStep, tenant: TenantId)
    requires Enabled(s, step) && ChargesMatch(s)
    ensures ChargesMatch(Next(s, step, tenant))
  {
    SumStep(s, step, tenant, ChargedTokens);
    if step.Answer? || step.Raise? {
      ChargeAddsUp(s.books, step.usage, step.at);
    }
  }

  lemma {:induction false} RowAddsUp(rows: seq<UsageRow>, row: UsageRow)
    ensures RowTokens(rows + [row]) == RowTokens(rows) + row.total && RowCosts(rows + [row]) == RowCosts(rows) + row.cost
    ensures RowPrompts(rows + [row]) == RowPrompts(rows) + row.prompt
    ensures RowCompletions(rows + [row]) == RowCompletions(rows) + row.completion
  {
    assert (rows + [row])[..|rows|] == rows;
  }

  /** What one step adds to the sum of what stages say about rows: the weight of a row that was just written. */
  lemma {:induction false} StoredStep(s: State, step: BookStep, tenant: TenantId, weight: Stage -> nat)
    requires Enabled(s, step)
    requires forall stage: Stage :: weight(stage) > 0 ==> stage.Inserted? || stage.Counted?
    requires forall u, stored :: weight(Counted(u, stored)) == weight(Inserted(u, stored))
    ensures Sum(Next(s, step, tenant).stages, weight)
         == Sum(s.stages, weight) + if step.Insert? then weight(Inserted(s.stages[step.i].usage, step.stored)) else 0
  {
    SumStep(s, step, tenant, weight);
    assert weight(Waiting) == 0 && weight(Failed) == 0 && weight(ServedFromCache) == 0;
    match step {
      case Insert(i, stored) =>
        assert weight(s.stages[i]) == 0;
      case Count(i) =>
        assert s.stages[i] == Inserted(s.stages[i].usage, s.stages[i].stored);
      case Answer(i, usage, _) =>
        assert weight(Charged(usage)) == 0;
      case Raise(i, usage, _, charged) =>
        assert weight(Raised(usage, charged)) == 0;
      case _ =>
    }
  }

  lemma {:induction false} RowsStep(s: State, step: BookStep, tenant: TenantId)
    requires Enabled(s, step) && RowsMatch(s)
    ensures RowsMatch(Next(s, step, tenant))
  {
    StoredStep(s, step, tenant, StoredTokens);
    StoredStep(s, step, tenant, StoredPrompt);
    StoredStep(s, step, tenant, StoredCompletion);
    StoredStep(s, step, tenant, StoredCost);
    StoredStep(s, step, tenant, StoredRow);
    if step.Insert? {
      RowAddsUp(s.books.rows, RowOf(tenant, s.stages[step.i].usage));
    }
  }

  lemma {:induction false} CountersStep(s: State, step: BookStep, tenant: TenantId)
    requires Enabled(s, step) && CountersMatch(s)
    ensures CountersMatch(Next(s, step, tenant))
  {
    SumStep(s, step, tenant, CountedPrompt);
    SumStep(s, step, tenant, CountedCompletion);
    SumStep(s, step, tenant, CountedCost);
    SumStep(s, step, tenant, CountedRequest);
    SumStep(s, step, tenant, HitRequest);
  }

  lemma {:induction false} BooksMatchStages(trace: Trace<BookStep>, tenant: TenantId)
    requires Reached(trace, tenant).Some?
    ensures var s := Reached(trace, tenant).value; ChargesMatch(s) && RowsMatch(s) && CountersMatch(s)
  {
    match trace
    case Start =>
    case Then(before, last) =>
      BooksMatchStages(before, tenant);
      var s := Reached(before, tenant).value;
      ChargesStep(s, last, tenant);
      RowsStep(s, last, tenant);
      CountersStep(s, last, tenant);
  }

  // ---------- agreement ----------

  /** No request is between its charge and its counters. */
  ghost predicate Quiet(stages: seq<Stage>) {
    forall i :: 0 <= i < |stages| ==> !stages[i].Charged? && !stages[i].Inserted?
  }

  predicate Lost(stage: Stage) {
    (stage.Inserted? || stage.Counted?) && !stage.stored
  }

  /** What requests whose row could not be written used. */
  function LostTokens(stage: Stage): nat {
    if Lost(stage) then stage.usage.Total() else 0
  }

  function LostPrompt(stage: Stage): nat {
    if Lost(stage) then stage.usage.prompt else 0
  }

  function LostCompletion(stage: Stage): nat {
    if Lost(stage) then stage.usage.completion else 0
  }

  function LostCost(stage: Stage): nat {
    if Lost(stage) then stage.usage.Cost() else 0
  }

  function LostRow(stage: Stage): nat {
    if Lost(stage) then 1 else 0
  }

  /** What was charged although nothing else was booked. */
  function OrphanTokens(stage: Stage): nat {
    if stage.Raised? && stage.charged then stage.usage.Total() else 0
  }

  /** An answer that never reached the counters and never will. */
  function Unbooked(stage: Stage): nat {
    if stage.Raised? then 1 else 0
  }

  /** A provider answered. */
  function Answered(stage: Stage): nat {
    if stage.Raised? || stage.Charged? || stage.Inserted? || stage.Counted? then 1 else 0
  }

  /** What requests that are charged but not yet inserted used. */
  function UninsertedTokens(stage: Stage): nat {
    if stage.Charged? then stage.usage.Total() else 0
  }

  function UncountedTokens(stage: Stage): nat {
    if stage.Charged? || stage.Inserted? then stage.usage.Total() else 0
  }

  /** What requests that are inserted but not yet counted used. */
  function UncountedPrompt(stage: Stage): nat {
    if stage.Inserted? then stage.usage.prompt else 0
  }

  function UncountedCompletion(stage: Stage): nat {
    if stage.Inserted? then stage.usage.completion else 0
  }

  function UncountedCost(stage: Stage): nat {
    if stage.Inserted? then stage.usage.Cost() else 0
  }

  function UncountedRow(stage: Stage): nat {
    if stage.Inserted? then 1 else 0
  }

  /** Between its charge and its counters. */
  function UnderWay(stage: Stage): nat {
    if stage.Charged? || stage.Inserted? then 1 else 0
  }

  lemma {:induction false} TokenSums(stages: seq<Stage>)
    ensures Sum(stages, ChargedTokens) == Sum(stages, StoredTokens) + Sum(stages, LostTokens)
      + Sum(stages, UninsertedTokens) + Sum(stages, OrphanTokens)
    ensures Sum(stages, ChargedTokens)
         == Sum(stages, CountedTokens) + Sum(stages, UncountedTokens) + Sum(stages, OrphanTokens)
  {
    if stages != [] {
      TokenSums(stages[..|stages| - 1]);
    }
  }

  lemma {:induction false} KindSums(stages: seq<Stage>)
    ensures Sum(stages, CountedTokens) == Sum(stages, CountedPrompt) + Sum(stages, CountedCompletion)
    ensures Sum(stages, LostTokens) == Sum(stages, LostPrompt) + Sum(stages, LostCompletion)
    ensures Sum(stages, StoredPrompt) + Sum(stages, LostPrompt)
         == Sum(stages, CountedPrompt) + Sum(stages, UncountedPrompt)
    ensures Sum(stages, StoredCompletion) + Sum(stages, LostCompletion)
         == Sum(stages, CountedCompletion) + Sum(stages, UncountedCompletion)
  {
    if stages != [] {
      KindSums(stages[..|stages| - 1]);
    }
  }

  lemma {:induction false} RowSums(stages: seq<Stage>)
    ensures Sum(stages, StoredRow) + Sum(stages, LostRow) == Sum(stages, CountedRequest) + Sum(stages, UncountedRow)
    ensures Sum(stages, StoredCost) + Sum(stages, LostCost) == Sum(stages, CountedCost) + Sum(stages, UncountedCost)
    ensures Sum(stages, Answered) == Sum(stages, CountedRequest) + Sum(stages, UnderWay) + Sum(stages, Unbooked)
  {
    if stages != [] {
      RowSums(stages[..|stages| - 1]);
    }
  }

  lemma {:induction false} QuietSums(stages: seq<Stage>)
    requires Quiet(stages)
    ensures Sum(stages, UninsertedTokens) == 0 && Sum(stages, UncountedTokens) == 0 && Sum(stages, UncountedCost) == 0
    ensures Sum(stages, UncountedPrompt) == 0 && Sum(stages, UncountedCompletion) == 0
    ensures Sum(stages, UncountedRow) == 0 && Sum(stages, UnderWay) == 0
  {
    if stages != [] {
      assert Quiet(stages[..|stages| - 1]);
      QuietSums(stages[..|stages| - 1]);
    }
  }

  /**
   * At every moment of every interleaving the limiter has charged exactly what the table holds, plus what
   * failed inserts lost, what raising charges orphaned and what is still on its way; likewise against the
   * counters, for the costs, and for the number of answers.
   */
  lemma {:induction false} NothingIsLostInBetween(trace: Trace<BookStep>, tenant: TenantId)
    requires Reached(trace, tenant).Some?
    ensures var s := Reached(trace, tenant).value; var c := s.books.counters;
      && Windows.Total(s.books.charges) == RowTokens(s.books.rows) + Sum(s.stages, LostTokens)
         + Sum(s.stages, UninsertedTokens) + Sum(s.stages, OrphanTokens)
      && Windows.Total(s.books.charges)
         == c.prompt + c.completion + Sum(s.stages, UncountedTokens) + Sum(s.stages, OrphanTokens)
      && RowPrompts(s.books.rows) + Sum(s.stages, LostPrompt) == c.prompt + Sum(s.stages, UncountedPrompt)
      && RowCompletions(s.books.rows) + Sum(s.stages, LostCompletion)
         == c.completion + Sum(s.stages, UncountedCompletion)
      && RowCosts(s.books.rows) + Sum(s.stages, LostCost) == c.cost + Sum(s.stages, UncountedCost)
      && |s.books.rows| + Sum(s.stages, LostRow) + c.hits == c.requests + Sum(s.stages, UncountedRow)
      && Sum(s.stages, Answered) == c.misses + Sum(s.stages, UnderWay) + Sum(s.stages, Unbooked)
  {
    BooksMatchStages(trace, tenant);
    TokenSums(Reached(trace, tenant).value.stages);
    KindSums(Reached(trace, tenant).value.stages);
    RowSums(Reached(trace, tenant).value.stages);
  }

  /**
   * Between requests: the token log agrees with the token counters exactly when no raising charge took
   * effect; the usage rows agree with the counters, in tokens and in cost, exactly when no row that held
   * any was lost; rows and hits make up the request counter exactly when no row was lost; and every
   * provider's answer is counted exactly when no charge raised.
   */
  lemma {:induction false} LedgersAgree(trace: Trace<BookStep>, tenant: TenantId)
    requires Reached(trace, tenant).Some? && Quiet(Reached(trace, tenant).value.stages)
    ensures var s := Reached(trace, tenant).value; var c := s.books.counters;
      && (Windows.Total(s.books.charges) == c.prompt + c.completion <==> Sum(s.stages, OrphanTokens) == 0)
      && (RowTokens(s.books.rows) == c.prompt + c.completion <==> Sum(s.stages, LostTokens) == 0)
      && (RowPrompts(s.books.rows) == c.prompt <==> Sum(s.stages, LostPrompt) == 0)
      && (RowCompletions(s.books.rows) == c.completion <==> Sum(s.stages, LostCompletion) == 0)
      && (RowCosts(s.books.rows) == c.cost <==> Sum(s.stages, LostCost) == 0)
      && (|s.books.rows| + c.hits == c.requests <==> Sum(s.stages, LostRow) == 0)
      && (Sum(s.stages, Answered) == c.misses <==> Sum(s.stages, Unbooked) == 0)
      && (Windows.Total(s.books.charges) == RowTokens(s.books.rows)
          <==> Sum(s.stages, LostTokens) == 0 && Sum(s.stages, OrphanTokens) == 0)
  {
    NothingIsLostInBetween(trace, tenant);
    QuietSums(Reached(trace, tenant).value.stages);
    KindSums(Reached(trace, tenant).value.stages);
  }

  lemma {:induction false} ZeroSum(stages: seq<Stage>, weight: Stage -> nat)
    ensures Sum(stages, weight) == 0 <==> forall i :: 0 <= i < |stages| ==> weight(stages[i]) == 0
  {
    if stages != [] {
      var n := |stages| - 1;
      ZeroSum(stages[..n], weight);
      assert forall i :: 0 <= i < n ==> stages[..n][i] == stages[i];
    }
  }

  /** With no failed insert and no raising charge, every two books agree. */
  lemma {:induction false} FaultlessRunsAgree(trace: Trace<BookStep>, tenant: TenantId)
    requires Reached(trace, tenant).Some? && Quiet(Reached(trace, tenant).value.stages)
    requires forall i :: 0 <= i < |Reached(trace, tenant).value.stages| ==>
      var stage := Reached(trace, tenant).value.stages[i]; !Lost(stage) && !stage.Raised?
    ensures var s := Reached(trace, tenant).value; var c := s.books.counters;
      && Windows.Total(s.books.charges) == RowTokens(s.books.rows) == c.prompt + c.completion
      && RowPrompts(s.books.rows) == c.prompt && RowCompletions(s.books.rows) == c.completion
      && RowCosts(s.books.rows) == c.cost
      && |s.books.rows| + c.hits == c.requests
      && Sum(s.stages, Answered) == c.misses
  {
    var stages := Reached(trace, tenant).value.stages;
    LedgersAgree(trace, tenant);
    ZeroSum(stages, LostTokens);
    ZeroSum(stages, LostPrompt);
    ZeroSum(stages, LostCompletion);
    ZeroSum(stages, LostCost);
    ZeroSum(stages, LostRow);
    ZeroSum(stages, OrphanTokens);
    ZeroSum(stages, Unbooked);
  }

  /** A hit and a failed request leave the charges, the rows and every token and cost counter as they were. */
  lemma {:induction false} HitsAndFailuresAreFree(s: State, step: BookStep, tenant: TenantId)
    requires Enabled(s, step) && (step.Hit? || step.Fail?)
    ensures var b, b' := s.books, Next(s, step, tenant).books;
      && b'.charges == b.charges && b'.rows == b.rows
      && b'.counters == b.counters.(requests := b'.counters.requests, hits := b'.counters.hits)
      && b'.counters.requests - b.counters.requests == b'.counters.hits - b.counters.hits
      && b'.counters.hits == b.counters.hits + (if step.Hit? then 1 else 0)
      && (step.Fail? ==> b' == b)
  {
  }

  // ---------- the same steps on the real ledgers ----------

  function RowsOf(rows: seq<UsageRow>, tenant: TenantId): seq<UsageRow> {
    if rows == [] then []
    else
      var last := rows[|rows| - 1];
      RowsOf(rows[..|rows| - 1], tenant) + if last.tenant == tenant then [last] else []
  }

  function CountersOf(counters: map<TenantId, Counters>, tenant: TenantId): Counters {
    if tenant in counters then counters[tenant] else NOTHING
  }

  /** Whether the charge raised, and whether it had taken effect by then. */
  datatype ChargeFault = NoFault | BeforeTheCharge | AfterTheCharge

  /** The books after one completion was recorded; a call that used no tokens is never charged and cannot raise. */
  function Recorded(b: Books, tenant: TenantId, u: Usage, fault: ChargeFault, stored: bool, at: real): Books {
    if fault == NoFault || u.Total() == 0 then AfterCount(AfterInsert(AfterCharge(b, u, at), tenant, u, stored), u)
    else if fault == AfterTheCharge then AfterCharge(b, u, at)
    else b
  }

  /** Any request may take its next step at any time, whatever the others are doing. */
  lemma AnyRequestMayMove(s: State, i: nat, u: Usage, at: real, flag: bool)
    requires i < |s.stages|
    ensures Enabled(s, Arrive)
    ensures s.stages[i].Waiting? ==> Enabled(s, Hit(i)) && Enabled(s, Fail(i)) && Enabled(s, Answer(i, u, at))
    ensures s.stages[i].Waiting? && u.prompt + u.completion > 0 ==> Enabled(s, Raise(i, u, at, flag))
    ensures s.stages[i].Charged? ==> Enabled(s, Insert(i, flag))
    ensures s.stages[i].Inserted? ==> Enabled(s, Count(i))
  {
  }

  /** What recording a completion does to each book, token kind by token kind. */
  lemma RecordedIs(b: Books, tenant: TenantId, u: Usage, fault: ChargeFault, stored: bool, at: real)
    ensures var b' := Recorded(b, tenant, u, fault, stored, at);
      var total, cost := u.prompt + u.completion, if u.cost.Some? then u.cost.value else 0;
      var raised := fault != NoFault && total > 0;
      && b'.charges == (if total > 0 && fault != BeforeTheCharge then b.charges + [Charge(at, total)] else b.charges)
      && b'.rows ==
           (if stored && !raised then b.rows + [UsageRow(tenant, u.prompt, u.completion, total, cost)] else b.rows)
      && b'.counters ==
           if raised then b.counters
           else Counters(b.counters.requests + 1, b.counters.prompt + u.prompt, b.counters.completion + u.completion,
                         b.counters.cost + cost, b.counters.hits, b.counters.misses + 1)
  {
  }

  lemma {:induction false} OneStepMore(trace: Trace<BookStep>, tenant: TenantId, s: State, step: BookStep, s': State)
    requires Reached(trace, tenant) == Some(s) && Enabled(s, step) && Next(s, step, tenant) == s'
    ensures Reached(Then(trace, step), tenant) == Some(s')
  {
  }

  lemma {:induction false} LastMovesOn(s: State, step: BookStep, tenant: TenantId, stages: seq<Stage>, last: Stage)
    requires s.stages == stages + [last] && Enabled(s, step) && !step.Arrive? && step.i == |stages|
    ensures Next(s, step, tenant) == State(stages + [NextStage(s, step)], NextBooks(s, step, tenant))
  {
    assert (stages + [last])[|stages| := NextStage(s, step)] == stages + [NextStage(s, step)];
  }

  /** The next request arrives, is answered, inserted and counted with nobody in between: what it leaves in the books. */
  lemma {:induction false} OneRequestRunsThrough(trace: Trace<BookStep>, tenant: TenantId, u: Usage, stored: bool, at: real)
    requires Reached(trace, tenant).Some?
    ensures var s := Reached(trace, tenant).value; var n := |s.stages|;
      Reached(Then(Then(Then(Then(trace, Arrive), Answer(n, u, at)), Insert(n, stored)), Count(n)), tenant)
      == Some(State(s.stages + [Counted(u, stored)], Recorded(s.books, tenant, u, NoFault, stored, at)))
  {
    var s := Reached(trace, tenant).value;
    var n := |s.stages|;
    var arrived := State(s.stages + [Waiting], s.books);
    var charged := State(s.stages + [Charged(u)], AfterCharge(s.books, u, at));
    var inserted := State(s.stages + [Inserted(u, stored)], AfterInsert(charged.books, tenant, u, stored));
    var counted := State(s.stages + [Counted(u, stored)], AfterCount(inserted.books, u));
    var t1 := Then(trace, Arrive);
    var t2 := Then(t1, Answer(n, u, at));
    var t3 := Then(t2, Insert(n, stored));
    OneStepMore(trace, tenant, s, Arrive, arrived);
    LastMovesOn(arrived, Answer(n, u, at), tenant, s.stages, Waiting);
    OneStepMore(t1, tenant, arrived, Answer(n, u, at), charged);
    LastMovesOn(charged, Insert(n, stored), tenant, s.stages, Charged(u));
    OneStepMore(t2, tenant, charged, Insert(n, stored), inserted);
    LastMovesOn(inserted, Count(n), tenant, s.stages, Inserted(u, stored));
    OneStepMore(t3, tenant, inserted, Count(n), counted);
  }

  /** The same for one whose charge raises. */
  lemma {:induction false} OneRequestRaises(trace: Trace<BookStep>, tenant: TenantId, u: Usage, fault: ChargeFault,
      stored: bool, at: real)
    requires Reached(trace, tenant).Some? && u.Total() > 0 && fault != NoFault
    ensures var s := Reached(trace, tenant).value; var n := |s.stages|;
      Reached(Then(Then(trace, Arrive), Raise(n, u, at, fault == AfterTheCharge)), tenant)
      == Some(State(s.stages + [Raised(u, fault == AfterTheCharge)], Recorded(s.books, tenant, u, fault, stored, at)))
  {
    var s := Reached(trace, tenant).value;
    var arrived, raise := State(s.stages + [Waiting], s.books), Raise(|s.stages|, u, at, fault == AfterTheCharge);
    OneStepMore(trace, tenant, s, Arrive, arrived);
    LastMovesOn(arrived, raise, tenant, s.stages, Waiting);
    OneStepMore(Then(trace, Arrive), tenant, arrived, raise, Next(arrived, raise, tenant));
  }

  class Accounts {
    const limiter: InMemoryRateLimiter
    const spending: Budgets.MtdCostCache
    var rows: seq<UsageRow>
    var counters: map<TenantId, Counters>

    constructor (limiter: InMemoryRateLimiter, spending: Budgets.MtdCostCache)
      ensures this.limiter == limiter && this.spending == spending
      ensures rows == [] && counters == map[]
    {
      this.limiter, this.spending := limiter, spending;
      rows, counters := [], map[];
    }

    /** One tenant's books as the ledgers hold them. */
    ghost function BooksOf(tenant: TenantId): Books
      reads this, limiter
    {
      Books(LedgerOf(limiter.ledgers, tenant).charges, RowsOf(rows, tenant), CountersOf(counters, tenant))
    }

    /** Counts a cached answer: one request, no tokens, no cost. */
    method RecordHit(tenant: TenantId)
      modifies this`counters
      ensures forall t :: t != tenant ==> BooksOf(t) == old(BooksOf(t))
      ensures BooksOf(tenant) == AfterHit(old(BooksOf(tenant)))
      ensures var c := old(BooksOf(tenant)).counters;
        BooksOf(tenant).counters == Counters(c.requests + 1, c.prompt, c.completion, c.cost, c.hits + 1, c.misses)
    {
      var c := if tenant in counters then counters[tenant] else NOTHING;
      counters := counters[tenant := CountHit(c)];
    }

    method ChargeTokens(tenant: TenantId, u: Usage, now: real)
      requires limiter.Valid() && limiter.clock <= now
      modifies limiter, limiter.repr
      ensures limiter.Valid() && limiter.clock <= now
      ensures forall t :: t != tenant ==> BooksOf(t) == old(BooksOf(t))
      ensures BooksOf(tenant) == AfterCharge(old(BooksOf(tenant)), u, now)
    {
      limiter.RecordTokens(tenant, u.Total(), now);
    }

    /** Writes the usage row; `stored` is false when the database refused it, which is ignored. */
    method InsertRow(tenant: TenantId, u: Usage, stored: bool)
      modifies this`rows
      ensures forall t :: t != tenant ==> BooksOf(t) == old(BooksOf(t))
      ensures BooksOf(tenant) == AfterInsert(old(BooksOf(tenant)), tenant, u, stored)
      ensures rows == if stored then old(rows) + [RowOf(tenant, u)] else old(rows)
    {
      if stored {
        ghost var before := rows;
        rows := rows + [RowOf(tenant, u)];
        assert rows[..|before|] == before;
      }
    }

    /** Adds to the cached spend and to the counters. */
    method SpendAndCount(tenant: TenantId, u: Usage, now: real)
      modifies this`counters, spending
      ensures forall t :: t != tenant ==> BooksOf(t) == old(BooksOf(t))
      ensures BooksOf(tenant) == AfterCount(old(BooksOf(tenant)), u)
      ensures spending.data == Budgets.AfterSpend(old(spending.data), tenant, u.Cost(), now, spending.ttl)
    {
      if u.cost.Some? && u.cost.value != 0 {
        Budgets.RecordSpend(spending, tenant, u.cost.value, now);
      }
      var c := if tenant in counters then counters[tenant] else NOTHING;
      counters := counters[tenant := CountMiss(c, u)];
    }

    /**
     * Charge, row, spend and counters, in this order and on this tenant's books only. When the charge raises,
     * nothing after it happens; otherwise cached spend and table stay in agreement, unless a row was lost.
     */
    method RecordCompletion(tenant: TenantId, u: Usage, fault: ChargeFault, stored: bool, now: real)
      returns (raised: bool)
      requires limiter.Valid() && limiter.clock <= now
      modifies this, limiter, limiter.repr, spending
      ensures limiter.Valid() && limiter.clock <= now
      ensures raised <==> fault != NoFault && u.Total() > 0
      ensures forall t :: t != tenant ==> BooksOf(t) == old(BooksOf(t))
      ensures BooksOf(tenant) == Recorded(old(BooksOf(tenant)), tenant, u, fault, stored, now)
      ensures rows == if stored && !raised then old(rows) + [RowOf(tenant, u)] else old(rows)
      ensures spending.data ==
        if raised then old(spending.data)
        else Budgets.AfterSpend(old(spending.data), tenant, u.Cost(), now, spending.ttl)
    {
      raised := fault != NoFault && u.Total() > 0;
      if !raised || fault == AfterTheCharge {
        ChargeTokens(tenant, u, now);
      }
      if raised {
        return;
      }
      InsertRow(tenant, u, stored);
      SpendAndCount(tenant, u, now);
    }
  }

  /** The part of the usage table that the budget looks at. */
  function CostRows(rows: seq<UsageRow>): seq<Budgets.Row> {
    if rows == [] then []
    else
      var last := rows[|rows| - 1];
      CostRows(rows[..|rows| - 1]) + [Budgets.Row(last.tenant, last.cost)]
  }

  /** Recording a completion keeps the cached spends in agreement with the table exactly when no row that mattered was lost. */
  lemma {:induction false} RecordingAgreesIff(data: map<TenantId, Budgets.Entry>, rows: seq<UsageRow>, row: UsageRow,
      stored: bool, now: real, ttl: real)
    requires Budgets.Agrees(data, CostRows(rows), now) && ttl >= 0.0
    ensures Budgets.Agrees(Budgets.AfterSpend(data, row.tenant, row.cost, now, ttl),
                           CostRows(if stored then rows + [row] else rows), now)
       <==> stored || row.cost == 0 || !Budgets.Live(data, row.tenant, now)
  {
    var cost := Budgets.Row(row.tenant, row.cost);
    assert (rows + [row])[..|rows|] == rows;
    Budgets.SpendWithRowAgrees(data, CostRows(rows), cost, now, ttl);
    Budgets.SpendWithoutRowAgreesIff(data, CostRows(rows), cost, now, ttl);
  }
}
