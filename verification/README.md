# A verified model of the LLM gateway

The gateway takes OpenAI-style chat requests from many tenants, decides whether a tenant may call
now, answers from a cache or from one of several providers, and writes down what the call used.
This project models the state machines behind that in Dafny and proves what they guarantee.

Time is an explicit number, read once in every stretch of code between two waits; such a stretch is
one atomic step. Objects that the gateway updates in place are classes here. Their ghost fields keep
the full history (every admission, every charge, every outcome, every cache touch), and each class
invariant says that the real fields are what that history implies. Behaviour over whole runs and under
every interleaving is stated over those histories or over small step machines. Money is in whole
micro-dollars, and similarities are exact reals.

| file | subject |
|---|---|
| `Windows.dfy`, `Traces.dfy`, `Shares.dfy` | time-stamped logs and their windows; finite runs; multiples of a bound |
| `RateLimiter.dfy` | the in-memory limiter: two deques per tenant, pruned lazily |
| `RateLimitRuns.dfy` | request safety, exact retry delays, token overshoot under every interleaving |
| `RedisLimiter.dfy` | the Redis request check as a protocol of separate round trips |
| `Budget.dfy` | the month-to-date cost cache, overspending, and what non-atomic checks do to the cache |
| `Gate.dfy` | authentication and the order of the three admission checks |
| `CircuitBreaker.dfy`, `Registry.dfy` | the per-provider breaker against its outcome log; the provider table |
| `Policies.dfy`, `Resolution.dfy` | resolving a model name or alias into an ordered chain, with the stable price sort; what the chain holds and in which order |
| `RouterSpec.dfy`, `Router.dfy` | walking the chain: specification and theorems; the loops that do it |
| `Pricing.dfy` | cost of a call, price lookup and rounding |
| `LruCache.dfy`, `Completions.dfy` | the exact cache, its key, and what a hit may be trusted for |
| `Embeddings.dfy`, `SemanticCache.dfy` | token-count vectors, cosine similarity, the nearest-neighbour cache |
| `Accounting.dfy` | token log, usage rows and counters under every interleaving |
| `Chat.dfy` | one chat completion end to end |
| `JsonNumbers.dfy`, `JsonText.dfy`, `Json.dfy` | the JSON printer, a reader for it, and what reading undoes |
| `Sse.dfy` | the event stream and a client for it |

## Model

| member | source | states |
|---|---|---|
| RateLimiter.SlidingWindow.Prune | app/backend/src/auth/ratelimit.py:48-53 | afterwards both deques are the full logs filtered to entries not older than the cutoff, and the logs are unchanged |
| RateLimiter.SlidingWindow.CheckRequest | app/backend/src/auth/ratelimit.py:69-79 | denied if and only if the last 60 seconds hold the limit of admissions, with the delay the full log gives; exactly the admitted requests are logged |
| RateLimiter.SlidingWindow.CheckTokens | app/backend/src/auth/ratelimit.py:81-93 | denied if and only if the tokens charged in the last 60 seconds have reached the limit, with the delay the full log gives; nothing is logged |
| RateLimiter.SlidingWindow.RecordTokens | app/backend/src/auth/ratelimit.py:95-101 | one more charge in the log, deques still its filter |
| RateLimiter.InMemoryRateLimiter.WindowOf | app/backend/src/auth/ratelimit.py:62-67 | an unknown tenant gets a new empty window, and no other tenant's ledger changes |
| RateLimiter.InMemoryRateLimiter.CheckRequest | app/backend/src/auth/ratelimit.py:69-79 | denied if and only if the last 60 seconds of the calling tenant hold the limit; an admission enters its ledger, and every other ledger is as before |
| RateLimiter.InMemoryRateLimiter.CheckTokens | app/backend/src/auth/ratelimit.py:81-93 | denied if and only if the calling tenant has used up the limit in the last 60 seconds; no ledger changes |
| RateLimiter.InMemoryRateLimiter.RecordTokens | app/backend/src/auth/ratelimit.py:95-101 | a positive amount is charged to that tenant alone, other amounts leave no trace |
| RateLimiter.RefusedIffWindowFull | app/backend/src/auth/ratelimit.py:73-79 | on every admission log a request is refused if and only if the 60 seconds up to now hold the limit of admissions |
| RateLimiter.RefusedIffTokensSpent | app/backend/src/auth/ratelimit.py:84-93 | on every charge log tokens refuse if and only if those charged in the 60 seconds up to now have reached the limit |
| Windows.PoppedSince | app/backend/src/auth/ratelimit.py:50-51 | popping old heads off a window leaves exactly the window of the later cutoff |
| Windows.PoppedChargesSince | app/backend/src/auth/ratelimit.py:52-53 | the same for the deque of token charges |
| RateLimitRuns.RpmSafety | app/backend/src/auth/ratelimit.py:69-79 | no closed 60-second interval of any run holds more than the limit of admissions |
| RateLimitRuns.DeniedIffWindowFull | app/backend/src/auth/ratelimit.py:73-79 | a check is denied if and only if the 60 seconds up to it already hold the limit of admissions, and is logged otherwise |
| RateLimitRuns.OldestLeaves | app/backend/src/auth/ratelimit.py:48-53 | a full window keeps all its entries up to the moment its oldest is 60 seconds old and loses one right after |
| RateLimitRuns.RequestDelayIsExact | app/backend/src/auth/ratelimit.py:73-77 | on every log the delay of a refused request lies in 0 to 60, and the window holds as many admissions as now at a later time if and only if that is within the delay |
| RateLimitRuns.RetryAfterIsExact | app/backend/src/auth/ratelimit.py:73-77 | the advertised delay lies in 0 to 60; with nothing admitted in between a later check passes if and only if it comes strictly after the delay |
| RateLimitRuns.RetryAfterHeaderSuffices | app/backend/src/auth/dependencies.py:51-60 | waiting the whole seconds of the Retry-After header is always enough; the header is between 1 and 61 and exceeds the delay by at most a second |
| RateLimitRuns.OldestChargeLeaves | app/backend/src/auth/ratelimit.py:52-53 | the window of charges stays whole up to the moment its oldest is 60 seconds old, and right after it has fewer charges and a smaller total |
| RateLimitRuns.TokenDelayIsExact | app/backend/src/auth/ratelimit.py:85-92 | on every charge log the delay of a token refusal lies in 0 to 60, the last minute holds as many tokens as now at a later time if and only if that is within the delay, fewer right after it, and no check passes before; with no tokens in the window the delay is 0 |
| RateLimitRuns.StepsMean | app/backend/src/auth/ratelimit.py:81-101 | a check lets a request through if and only if the last 60 seconds hold fewer tokens than the limit, a finished one is charged what it used, and only time and the limits keep a step from happening |
| RateLimitRuns.StepReserved | app/backend/src/auth/ratelimit.py:81-101 | every step keeps window sum plus a share for each open request within the bound |
| RateLimitRuns.TpmOvershoot | app/backend/src/auth/ratelimit.py:81-101 | with at most k requests between check and charge and at most `most` tokens each, no closed 60-second interval of any run holds more than tpm limit - 1 + k * most tokens |
| RateLimitRuns.OvershootIsReached | app/backend/src/auth/ratelimit.py:81-101 | a run that attains that bound, for every limit, every k of at least 1 and every `most` of at least 1 |
| RateLimitRuns.OvershootIsExact | app/backend/src/auth/ratelimit.py:81-101 | some run attains the bound if and only if tokens can be charged at all, or the limit is 1 and there is nothing to attain |
| RedisLimiter.PruneRemovesTheOld | app/backend/src/auth/ratelimit.py:133-136 | pruning removes exactly the readings between zero and 60 seconds ago, both ends included |
| RedisLimiter.AddEntersTheReading | app/backend/src/auth/ratelimit.py:140 | after an add the set has the call's reading and all it had before, and is larger by one if and only if the reading is new |
| RedisLimiter.NoReadingTwice | app/backend/src/auth/ratelimit.py:129-142 | in every interleaving no reading is in the set twice |
| RedisLimiter.SizePlusAdmitted | app/backend/src/auth/ratelimit.py:129-142 | set size plus calls about to add is at most rpm limit + k - 1 in every interleaving |
| RedisLimiter.RedisOvershoot | app/backend/src/auth/ratelimit.py:129-142 | the sorted set never exceeds rpm limit + k - 1 |
| RedisLimiter.RedisOvershootIsReached | app/backend/src/auth/ratelimit.py:133-140 | a run whose set has exactly rpm limit + k - 1 members |
| RedisLimiter.LimitHoldsIffSerialized | app/backend/src/auth/ratelimit.py:133-140 | the limit holds in every run if and only if at most one call is between its count and its add |
| Budgets.MtdCostCache.Get | app/backend/src/auth/budget.py:35-42 | a value exactly when the tenant has an entry that expires no earlier than now |
| Budgets.CheckBudget | app/backend/src/auth/budget.py:61-88 | whatever the cache held: allowed if and only if there is no budget, it is at most zero, or the usage rows sum to less; the spend reported is that sum, and the cache still agrees with the rows |
| Budgets.FillAndDecide | app/backend/src/auth/budget.py:76-88 | the part of the check after the table was read: what was read is cached for one lifetime, and is allowed if and only if it is below the budget |
| Budgets.RecordSpend | app/backend/src/auth/budget.py:91-102 | only a live value grows, by the cost, with its lifetime started anew |
| Budgets.InsertAndSpend | app/backend/src/api/routes.py:208-231 | insert and spend together keep every live value equal to the row sum if and only if the insert succeeded, or the call cost nothing or met no live value |
| BudgetRuns.OverspendIsBounded | app/backend/src/auth/budget.py:61-88 | with at most k requests in flight at most `most` each, and cached spends off by at most `slack`, spend never reaches budget + slack + k * most |
| BudgetRuns.OverspendIsExact | app/backend/src/auth/budget.py:61-88 | some run spends exactly one less than that if and only if anything can be spent at all, or the bound is zero |
| BudgetRuns.ErrorIsKept | app/backend/src/auth/budget.py:73-102 | under every interleaving a live value, plus what is still unrecorded, is the month's sum plus the error of the latest fill, however old that fill is |
| BudgetRuns.ErrorPartsAreCosts | app/backend/src/auth/budget.py:73-102 | the error is costs open at the fill's read, minus costs recorded between that read and the fill, plus costs of months closed since, and none of the three is negative |
| BudgetRuns.AgreesIffErrorsCancel | app/backend/src/auth/budget.py:73-102 | between requests a live value equals the month's row sum if and only if these parts cancel |
| BudgetRuns.AtomicCheckMakesNoError | app/backend/src/auth/budget.py:73-76 | reading and filling together, with no request between insert and spend, makes no error |
| BudgetRuns.LiveIffSpendsBridge | app/backend/src/auth/budget.py:35-45 | a value is live if and only if its fill, the positive spends since, and now follow each other within a lifetime |
| BudgetRuns.OutlivesItsFillIff | app/backend/src/auth/budget.py:91-102 | a value is live more than a lifetime after its fill if and only if positive spends bridge the gap |
| BudgetRuns.RolloverKeepsTheOldSum | app/backend/src/auth/budget.py:73-102 | at the start of a month the live value stays as it was, and its error grows by the whole old sum |
| BudgetRuns.LateFillLosesASpend | app/backend/src/auth/budget.py:73-76 | a request completing between a check's read and its fill leaves an over-budget tenant admitted, for every budget |
| BudgetRuns.EarlyFillCountsTwice | app/backend/src/api/routes.py:208-231 | a check between a request's insert and its spend leaves a tenant within budget refused, for every budget of at least 2 |
| BudgetRuns.SteadyTrafficKeepsTheError | app/backend/src/auth/budget.py:91-102 | from any state steady traffic keeps a value live for any number of lifetimes, wrong by as much as it was |
| BudgetRuns.OldMonthLivesOn | app/backend/src/auth/budget.py:91-102 | a month's sum is still in the cached value any number of lifetimes into the next month |
| Gates.Gate.CheckRates | app/backend/src/auth/dependencies.py:49-68 | the request rate is judged first; passing it uses up a slot even when the token rate then refuses |
| Gates.Gate.CheckTenant | app/backend/src/auth/dependencies.py:49-84 | the answer is decided by the first failing check on the full logs and the usage rows |
| Gates.AnswersMean | app/backend/src/auth/dependencies.py:49-84 | granted if and only if admissions and tokens of the last 60 seconds are below their limits and the month's spend is within a positive budget; each refusal stands for the first of the three that fails |
| Gates.Gate.GetCurrentTenant | app/backend/src/auth/dependencies.py:17-84 | open mode admits everyone untouched; a missing and an unknown key are told apart and change nothing; a known tenant is answered by what the last 60 seconds and the usage rows hold against its three limits, and its admission is logged unless the request rate refused it |
| CircuitBreakers.CircuitBreaker.RecordSuccess | app/backend/src/providers/registry.py:32-34 | the outcome log gains a success and the fields still say what the log says |
| CircuitBreakers.CircuitBreaker.RecordFailure | app/backend/src/providers/registry.py:36-40 | the outcome log gains a failure and the fields still say what the log says |
| CircuitBreakers.CircuitBreaker.Allow | app/backend/src/providers/registry.py:42-51 | the three-state answer is a function of the outcome log and the time alone, refusing exactly while the log ends in a threshold of failures and the recovery time runs; asking changes no later answer |
| CircuitBreakers.RefusedIffTripped | app/backend/src/providers/registry.py:36-51 | a call is refused if and only if the last outcomes on record, as many as the threshold and at least one, are all failures and the recovery time since the last of them is not over |
| CircuitBreakers.AdmitsUntilFailure | app/backend/src/providers/registry.py:42-51 | a granted call stays granted, whatever time passes and however many successes arrive, until a failure is recorded |
| CircuitBreakers.RecoveryAdmitsEveryone | app/backend/src/providers/registry.py:45-51 | after the recovery time every caller is let through, and the next outcome closes or reopens according to whether it is a success |
| CircuitBreakers.AdmissionsAreSpaced | app/backend/src/providers/registry.py:36-51 | from the threshold on, admissions to a failing provider are at least the recovery time apart |
| CircuitBreakers.DeadProviderIsCalledRarely | app/backend/src/providers/registry.py:36-51 | calls admitted to a provider that never succeeds, in any span of T seconds, number at most threshold + floor(T / recovery) |
| Registry.ProviderRegistry.Register | app/backend/src/providers/registry.py:64-73 | a new name joins at the end, a known one keeps its place, and its breaker starts fresh |
| Registry.RegisteredPlace | app/backend/src/providers/registry.py:64-73 | assigning a new name appends it, assigning a known one replaces it where it stands |
| Registry.ProviderRegistry.Ask | app/backend/src/routing/router.py:63-65 | up exactly when the provider is known and its outcome log admits; no log changes |
| Registry.ProviderRegistry.Tell | app/backend/src/routing/router.py:70-90 | exactly that provider's log gains exactly that outcome |
| Router.ForModel | app/backend/src/providers/registry.py:81-89 | the loop over breakers yields, in registration order, the specified concrete chain |
| Router.DefaultsOfAll | app/backend/src/routing/policies.py:54-63 | the loop yields each admitted provider's default, in registration order |
| Router.AllPriced | app/backend/src/routing/policies.py:41-49 | the nested loops collect every priced model of every admitted provider |
| Router.Resolve | app/backend/src/routing/policies.py:21-64 | for a concrete model and for auto: only providers that can be asked, in registration order, all of them with fallback and at most the first of them without; for every policy the chain the outcome logs determine; resolving changes no log |
| Policies.ConcreteChainIsExact | app/backend/src/routing/policies.py:33-36 | a concrete model's chain holds exactly the admitted providers that serve it, each once, with that model |
| Policies.AutoChainIsExact | app/backend/src/routing/policies.py:54-64 | the auto chain holds exactly the admitted providers that have a default, each with its own |
| Policies.PricedModelsAreExact | app/backend/src/routing/policies.py:45-49 | a provider contributes exactly its listed models that have a price, at their input price |
| Policies.PricedCandidatesAreExact | app/backend/src/routing/policies.py:41-49 | the candidates are exactly the priced models of admitted providers |
| Policies.SortRising | app/backend/src/routing/policies.py:50 | the sorted candidates rise in price |
| Policies.SortIsStable | app/backend/src/routing/policies.py:50 | candidates of equal price keep their order, and none is lost or added |
| Policies.SortIsTheStableOrder | app/backend/src/routing/policies.py:50 | any rising list with the same candidates per price in the same order is this one, so every stable sort gives it |
| Policies.SortKeepsMembers | app/backend/src/routing/policies.py:50-51 | sorting neither drops nor invents a candidate |
| Policies.FullChainIsUp | app/backend/src/routing/policies.py:33-64 | every candidate of a chain belongs to a provider whose breaker admitted it when the chain was resolved |
| Resolutions.ConcreteResolution | app/backend/src/routing/policies.py:33-36 | the chain of a concrete model has only admitted providers that serve it, with that model, in registration order; with fallback all of them, without at most one; its head is the first registered of them |
| Resolutions.AutoResolution | app/backend/src/routing/policies.py:54-64 | the chain of auto has only admitted providers that have a default, each with it, in registration order; with fallback all of them, without at most one; its head is the first registered of them |
| Resolutions.CheapestResolution | app/backend/src/routing/policies.py:39-52 | along the chain of cheapest and fastest input prices never fall and ties stand in the order of registration and of each provider's list; with fallback it has every priced model of every admitted provider, without at most one, and nothing on offer costs less than its head |
| Router.Reach | app/backend/src/routing/router.py:62-90 | a refused candidate is passed over without a trace; an admitted one is called and its outcome recorded |
| Router.TryChain | app/backend/src/routing/router.py:58-134 | the attempt loop returns what the walk specification returns and leaves the outcome logs it leaves |
| Router.Route | app/backend/src/routing/router.py:44-134 | the whole call equals the walk over the resolved chain, for every behaviour of providers and of other requests; no provider is reported exactly when none that serves the model is admitted, and a request with fallback that ran out of candidates has called every one of them or was refused by it when it got there |
| RouterSpec.WalkShape | app/backend/src/routing/router.py:62-134 | only the last visit can end the walk, and stopping before the end of the chain means it was ended |
| RouterSpec.OneReportPerAttempt | app/backend/src/routing/router.py:69-90 | each attempt records exactly one outcome, on the provider called: a success for an answer and a failure for anything else |
| RouterSpec.OutcomesAddUp | app/backend/src/routing/router.py:69-90 | a provider's outcome log grows by this request's attempts on it plus what other requests recorded |
| RouterSpec.QuietWalkRecordsItsOwn | app/backend/src/routing/router.py:69-90 | without interleaving the logs hold this request's outcomes and nothing else |
| RouterSpec.RecordAllAppend | app/backend/src/routing/router.py:69-90 | each report is appended to the log of its provider, and one on an unknown provider is dropped |
| RouterSpec.WalkRecordsEverything | app/backend/src/routing/router.py:62-90 | under every interleaving the breakers have been told what others reported during each call and then that call's own outcome, call by call, and nothing else |
| RouterSpec.CallsGetTheirReplies | app/backend/src/routing/router.py:66-90 | the i-th attempt gets the i-th reply, and its outcome is recorded on the provider called, a success for an answer and a failure at the time of the reply for anything else |
| RouterSpec.EveryoneAheadFailedOrWasDown | app/backend/src/routing/router.py:62-90 | under every interleaving a candidate is skipped exactly when its breaker refused it as it was reached, and one ahead of the last visit that was called failed retryably or unexpectedly |
| RouterSpec.SkippedForAReason | app/backend/src/routing/router.py:62-65 | without interleaving a candidate is skipped only when its provider was down from the start or failed earlier in the same request |
| RouterSpec.AttemptsAreAPrefix | app/backend/src/routing/router.py:62-66 | without interleaving, on a chain of distinct admitted providers, the attempts are exactly a prefix of the chain |
| RouterSpec.FinishIsWalk | app/backend/src/routing/router.py:58-134 | the loop with its accumulated attempts and last error computes the walk |
| RouterSpec.AttemptsAreASubsequence | app/backend/src/routing/router.py:62-66 | the attempts occur in the chain in this order |
| RouterSpec.PrefixIffNoGaps | app/backend/src/routing/router.py:62-66 | under every interleaving, on a chain without repeats, the attempts are a prefix of it if and only if no candidate was skipped ahead of one that was called |
| RouterSpec.RouteGuarantees | app/backend/src/routing/router.py:51-134 | for every model name, provider behaviour and interleaving: a non-empty chain's attempts are a non-empty subsequence starting at its head and get the replies in order; all but the last failed retryably or unexpectedly, and if the last did too the chain was walked to its end; the result is the last attempt's, and the no-providers-tried error cannot occur |
| RouterSpec.ConcreteAndAutoGoInOrder | app/backend/src/routing/policies.py:33-64 | for concrete and auto requests run without interleaving the attempts are exactly a chain prefix |
| RouterSpec.EveryServerHadItsTurn | app/backend/src/routing/router.py:58-134 | for every interleaving: a concrete request with fallback that failed without a final error has called each provider that serves the model and was admitted, or was refused by its breaker when it got there; undisturbed it has called them all |
| RouterSpec.EveryDefaultHadItsTurn | app/backend/src/routing/router.py:58-134 | the same for auto and every admitted provider with a default |
| RouterSpec.EveryOfferHadItsTurn | app/backend/src/routing/router.py:58-134 | the same for cheapest and fastest and every priced model of an admitted provider |
| RouterSpec.EarlierServersWerePassedOver | app/backend/src/routing/router.py:58-134 | when a concrete request is served, every provider registered earlier that serves the model and was admitted was called and failed, or was refused by its breaker when reached; without fallback there is none |
| RouterSpec.CheaperOnesFailed | app/backend/src/routing/policies.py:39-52 | for every provider behaviour and interleaving: when a cheapest request is served, every cheaper priced model of an admitted provider comes earlier in the chain and was tried and failed, or was refused by its breaker when reached; without fallback there is none |
| Pricing.EstimateCost | app/backend/src/providers/pricing.py:39-49 | no cost exactly when no priced model is in the same family; otherwise a whole number of micro-dollars within half a one of prompt tokens times input price plus completion tokens times output price, at the price found first |
| Pricing.LookupFinds | app/backend/src/providers/pricing.py:40 | a price is found if and only if some entry has exactly this name, and it is that entry's |
| Pricing.SameFamilyIff | app/backend/src/providers/pricing.py:43-44 | two names are of one family if and only if one is the other behind some prefix |
| Pricing.BilledAtTheFirst | app/backend/src/providers/pricing.py:39-46 | the price is that of the first entry with exactly this name, or without one of the first entry of the family |
| Pricing.RoundedIsNearest | app/backend/src/providers/pricing.py:49 | a billed cost is within half a micro-dollar of the exact one |
| Pricing.CostMonotone | app/backend/src/providers/pricing.py:17-21 | cost rises with either token count |
| Pricing.BillingErrorBound | app/backend/src/providers/pricing.py:39-49 | n billed costs sum to within n half micro-dollars of the sum of tokens times prices |
| Pricing.BillingErrorIsReached | app/backend/src/providers/pricing.py:39-49 | n calls of one prompt token at a listed price whose errors add up to exactly that bound, for every n |
| LruCache.InMemoryCache.Get | app/backend/src/middleware/cache.py:88-97 | a hit is the latest stored value, unexpired; a fresh key with fewer than `max` other keys touched since its own last touch is always a hit |
| LruCache.InMemoryCache.Set | app/backend/src/middleware/cache.py:99-103 | the store is logged, and the dictionary again lists its keys by last touch and holds at most `max` |
| LruCache.RankIsTouchedSince | app/backend/src/middleware/cache.py:95-103 | a key's place from the back of the order is the number of distinct keys touched after it |
| LruCache.TouchedSinceIs | app/backend/src/middleware/cache.py:95-101 | a key counts as touched since another if and only if some touch of it has no touch of the other at or after it |
| LruCache.LatestStoreIsLast | app/backend/src/middleware/cache.py:99-101 | the latest store of a key is one in the log with no store of that key after it |
| LruCache.FreshIsThere | app/backend/src/middleware/cache.py:88-103 | a fresh key among the `max` most recently touched is resident with its latest value |
| LruCache.FrontMayGo | app/backend/src/middleware/cache.py:102-103 | the entry popped from an overfull dictionary has at least `max` keys touched after it |
| LruCache.SizeIsBounded | app/backend/src/middleware/cache.py:99-103 | the dictionary never holds more than `max` entries |
| Completions.KeysAgreeExactly | app/backend/src/middleware/cache.py:34-47 | the printed payloads of two requests are equal if and only if they agree on max tokens, temperature and top p and, up to surrogate pairs, on model and on the roles and content texts of their messages |
| Completions.StopIsNotInTheKey | app/backend/src/middleware/cache.py:36-45 | for every request and every other stop setting there is a different request with that setting and the same key |
| Completions.StructuresAgreeIff | app/backend/src/middleware/cache.py:39 | two structured contents get the same key if and only if they are equal up to surrogate pairs |
| Completions.TextPosesAsStructureIff | app/backend/src/middleware/cache.py:39 | a plain text gets the key of structured content if and only if it spells out that content's JSON |
| Completions.ServeCopy | app/backend/src/api/routes.py:131-136 | a hit is a new object with the stored content and usage, relabelled; the stored object keeps its own metadata |
| Completions.ExactCache.Lookup | app/backend/src/api/routes.py:114-152 | a hit carries content and usage of the latest answer stored for the same key, at most one lifetime old; recent keys always hit; nothing stored changes |
| Completions.ExactCache.Store | app/backend/src/api/routes.py:165-183 | the routed answer becomes the latest for its key, whatever lookups and stores came in between |
| Completions.LatestRoutedIsLast | app/backend/src/api/routes.py:165-183 | the latest answer of a key is one routed for it with none routed for it later |
| Embeddings.Cosine | app/backend/src/middleware/embeddings.py:63-76 | an error exactly for different lengths, and otherwise the value whose product with the two lengths is the dot product, zero when one of the vectors is zero |
| Embeddings.Embed | app/backend/src/middleware/embeddings.py:52-60 | the text is split into its words, and the loops compute the normalised vector of bucket counts |
| Embeddings.EmbedTokens | app/backend/src/middleware/embeddings.py:53-60 | component by component the number of tokens in that bucket, divided by the length of the count vector unless that is zero |
| Embeddings.OneRunOneWord | app/backend/src/middleware/embeddings.py:26 | a non-empty text of ASCII letters and digits is one word, with exactly these letters; no text has no word |
| Embeddings.SeparatorsSplit | app/backend/src/middleware/embeddings.py:26 | any character other than an ASCII letter or digit ends a word and leaves no other trace |
| Embeddings.SeparatorsDoNotMatter | app/backend/src/middleware/embeddings.py:26 | which separators stand between two pieces of text, and how many, makes no difference to the words |
| Embeddings.CountTokens | app/backend/src/middleware/embeddings.py:53-56 | each bucket holds the number of tokens that hash into it |
| Embeddings.DotAppend | app/backend/src/middleware/embeddings.py:67-73 | the dot product adds up the products of matching components |
| Embeddings.CauchySchwarz | app/backend/src/middleware/embeddings.py:67-73 | the square of the dot product is at most the product of the squared lengths |
| Embeddings.CosineRange | app/backend/src/middleware/embeddings.py:63-76 | similarity is symmetric, lies between -1 and 1, and is 1 between a non-zero vector and itself |
| Embeddings.ScaleInvariance | app/backend/src/middleware/embeddings.py:57-76 | scaling by a positive factor changes no similarity |
| Embeddings.NormalisingKeepsSimilarity | app/backend/src/middleware/embeddings.py:57-60 | comparing embeddings is comparing the count vectors |
| Embeddings.UnitDotIsCosine | app/backend/src/middleware/embeddings.py:39-40 | on normalised vectors similarity is just the dot product |
| Embeddings.SimilarityOneIffSameEmbedding | app/backend/src/middleware/embeddings.py:63-76 | similarity is 1 if and only if both vectors are non-zero and have the same embedding |
| Embeddings.CountsSumToTokens | app/backend/src/middleware/embeddings.py:54-56 | the counts add up to the number of tokens |
| Embeddings.OrderDoesNotMatter | app/backend/src/middleware/embeddings.py:54-56 | the counts depend only on which tokens occur and how often |
| Embeddings.SimilarIffTheyShareABucket | app/backend/src/middleware/embeddings.py:52-76 | similarity of two texts is never negative, and is positive if and only if a token of one shares a bucket with a token of the other |
| Embeddings.SameTokensMatchExactly | app/backend/src/middleware/embeddings.py:52-76 | texts with the same tokens in any order have similarity 1 |
| SemanticCaches.SemanticCache.EvictExpired | app/backend/src/middleware/cache.py:123-125 | exactly the unexpired entries stay, in order |
| SemanticCaches.UnexpiredMembers | app/backend/src/middleware/cache.py:123-125 | an entry survives if and only if it was there and does not expire before now |
| SemanticCaches.SemanticCache.Nearest | app/backend/src/middleware/cache.py:151-159 | the scan finds the earliest entry of greatest similarity, or none above -1 |
| SemanticCaches.SemanticCache.GetSemantic | app/backend/src/middleware/cache.py:140-162 | a miss if and only if no unexpired entry of the namespace reaches the threshold at a similarity above -1; a hit is the earliest unexpired one of maximal similarity; other namespaces play no part; while all stores used one lifetime the live entries are the unexpired ones among the last `max` stores |
| SemanticCaches.SemanticCache.SetSemantic | app/backend/src/middleware/cache.py:164-184 | the namespace's list gains the embedded text with its expiry at the end and keeps its last `max` entries |
| SemanticCaches.SurvivorsAreTheRecentUnexpired | app/backend/src/middleware/cache.py:123-184 | with a clock that does not run back and stores whose expiry times never fall, what a lookup sees is exactly the unexpired part of the last `max` stores |
| SemanticCaches.TwoLifetimesAreExactIff | app/backend/src/middleware/cache.py:123-184 | with two lifetimes that holds in every run if and only if the cache has room for at most one entry or no entry ever lives |
| SemanticCaches.RepeatedTokensMatch | app/backend/src/middleware/cache.py:150-162 | a prompt with a stored prompt's tokens passes every threshold up to 1, and only an equal embedding passes the threshold 1 |
| Accounting.BooksMatchStages | app/backend/src/api/routes.py:194-245 | in every reachable state charges, rows and counters hold exactly what the requests that have come that far used, prompt and completion tokens apart |
| Accounting.NothingIsLostInBetween | app/backend/src/api/routes.py:202-245 | at every moment the limiter's charges equal the rows plus lost inserts plus orphaned charges plus what is on its way; likewise the counters, prompt and completion tokens each for themselves, the costs and the number of answers |
| Accounting.LedgersAgree | app/backend/src/api/routes.py:131-245 | between requests: token log and token counters agree if and only if no charge raised after taking effect; rows and counters agree, in prompt tokens, in completion tokens and in cost, if and only if no insert that held any failed; rows plus hits equal the request counter if and only if no insert failed; every answer is counted if and only if no charge raised |
| Accounting.FaultlessRunsAgree | app/backend/src/api/routes.py:131-245 | with no failed insert and no raising charge all books agree in tokens, costs and requests |
| Accounting.HitsAndFailuresAreFree | app/backend/src/api/routes.py:131-163 | a hit is counted as a request and a hit and nothing else; a failed request changes no book |
| Accounting.OneRequestRunsThrough | app/backend/src/api/routes.py:194-245 | from every reachable state a request can arrive, be answered, inserted and counted, and leaves in the books what recording a completion leaves |
| Accounting.OneRequestRaises | app/backend/src/api/routes.py:202 | from every reachable state a charge can raise, and leaves in the books what a raising record leaves |
| Accounting.Accounts.RecordHit | app/backend/src/api/routes.py:137-152 | one hit in this tenant's counters, everyone else's books as before |
| Accounting.Accounts.RecordCompletion | app/backend/src/api/routes.py:194-245 | charge, row, cached spend and counters in this order, on this tenant's books only; when the charge raises, nothing after it happens |
| Accounting.RecordingAgreesIff | app/backend/src/api/routes.py:208-231 | the cached spends stay in agreement with the usage table if and only if the row was stored, or cost nothing, or met no live value |
| Chat.Gateway.AskProviders | app/backend/src/api/routes.py:154-163 | unavailable, bad gateway or an answer exactly as the router's result says, with its tokens and estimated cost |
| Chat.Gateway.Settle | app/backend/src/api/routes.py:165-183 | the answer is stored under its key, if it has one, and enters the caller's books once; a raising charge stops the rest but not the store |
| Chat.Gateway.ChatCompletions | app/backend/src/api/routes.py:71-191 | forbidden exactly when the tenant has a list without this model and it is no alias; an answer of the same key no older than the lifetime, with fewer than `max` other keys touched since, is always served from the cache, without calling a provider and as a relabelled copy; streamed requests and a disabled cache never read or store; an answer is otherwise stored under its key and booked once; refusals and failures leave cache and books alone; a raising charge turns an answer into an error that stays cached |
| JsonText.CharsRoundTrip | app/backend/src/api/routes.py:261 | for every text, lone surrogates included: reading the printed text gives it with its surrogate pairs merged, and stops at the closing quote |
| JsonText.MergedIffNoPair | app/backend/src/api/routes.py:261 | merging changes a text if and only if a high surrogate stands right before a low one |
| JsonText.UnescapedStands | app/backend/src/api/routes.py:261 | a text without quote, backslash and anything outside printable ASCII is printed as it stands between quotes |
| JsonNumbers.DecimalNotation | app/backend/src/middleware/cache.py:46 | integers are printed in decimal notation, negative ones behind a minus sign |
| JsonNumbers.NumberRoundTrip | app/backend/src/middleware/cache.py:46 | every printed integer and float reads back as it was, and reading stops where it ends |
| Json.RoundTrip | app/backend/src/api/routes.py:261 | reading a printed value, compact or spaced, gives it back with surrogate pairs merged, and stops exactly where it ends |
| Json.PrintsAlikeIff | app/backend/src/middleware/cache.py:46 | two values print alike if and only if they are equal once surrogate pairs are merged |
| Json.RoundTripIffUnpaired | app/backend/src/api/routes.py:261 | decoding undoes encoding if and only if no text inside the value has a surrogate pair |
| Json.PrintIsPlain | app/backend/src/api/routes.py:261 | printed JSON is printable ASCII without line breaks, whatever the strings inside |
| Sse.SplitWords | app/backend/src/api/routes.py:290-298 | the loop splits the text into non-empty parts with white space only as last character, all but the last ending in white space |
| Sse.SplitIsUnique | app/backend/src/api/routes.py:290-298 | there is only one such split of a text |
| Sse.SseStream | app/backend/src/api/routes.py:264-307 | a client reading the chunks gets the role, the parts of the one split in order, the finish reason and the sentinel, every chunk with the completion's id, model and time, its object name and index 0; it ends up with the first choice's content with surrogate pairs merged, nothing when that is null or missing, and with its finish reason, stop when there is no choice |
| Sse.ChunkOnTheWire | app/backend/src/api/routes.py:259-306 | the bytes of a chunk: the members in the order of the source, compact, with the object name and the index spelled out |
| Sse.DeltaOnTheWire | app/backend/src/api/routes.py:284-306 | the bytes of the three kinds of delta |
| Sse.FrameRead | app/backend/src/api/routes.py:259-261 | a client takes exactly the payload out of a frame and continues right after it |
| Sse.PayloadUnderstood | app/backend/src/api/routes.py:276-306 | id, object name, model, creation time, index, delta and finish reason can be read back from a chunk |
| Sse.StreamRoundTrip | app/backend/src/api/routes.py:264-307 | parsing the whole stream gives exactly its messages in order |
| Sse.PartsMerge | app/backend/src/api/routes.py:290-302 | splitting at white space never cuts a surrogate pair |
| Sse.ClientSeesTheCompletion | app/backend/src/api/routes.py:264-307 | a client that appends the deltas ends up with one role, the completion's text with surrogate pairs merged, one finish reason and one sentinel |
| Sse.TextArrivesIffUnpaired | app/backend/src/api/routes.py:264-307 | the text arrives exactly as it was if and only if it has no surrogate pair |
| Sse.StreamIsAscii | app/backend/src/api/routes.py:259-261 | every chunk is ASCII, so encoding it changes nothing |

## Where the code and its comments differ

The model follows the code.

- `app/backend/src/providers/registry.py:50` speaks of a single trial. The half-open state admits every
  caller until an outcome is recorded (`CircuitBreakers.RecoveryAdmitsEveryone`).
- `README.md:66` calls the Redis window atomic. It is a pipeline without a transaction followed by a
  separate add, and the limit holds exactly when calls do not overlap there
  (`RedisLimiter.LimitHoldsIffSerialized`).
- `app/backend/src/auth/budget.py:7-8` promises at most 30 seconds of staleness. A cached value outlives
  that exactly as long as recorded spends follow each other within a lifetime
  (`BudgetRuns.OutlivesItsFillIff`), and a new month does not end it (`BudgetRuns.OldMonthLivesOn`).
- `app/backend/src/middleware/cache.py:35` calls the cache key the dimensions that determine the
  content. It leaves out `stop` (`Completions.StopIsNotInTheKey`), so cache soundness is stated relative
  to the key.
- `app/backend/src/api/routes.py:197-199` says that bookkeeping never raises. The charge at line 202 is
  outside any handler, and the Redis limiter's can raise. Which books then still agree, and which answers
  go uncounted, is `Accounting.LedgersAgree`; what the caller sees is `Chat.Gateway.ChatCompletions`.

## Left out

- RateLimiter.SlidingWindow.CheckRequest: asks for a limit of at least 1, because with a smaller one
  `app/backend/src/auth/ratelimit.py:74` reads the head of an empty deque and raises.
- RateLimitRuns.RpmSafety: is about one fixed limit for a tenant; two keys of one tenant with different
  limits share a window in the code.
- RedisLimiter.RedisOvershoot: bounds the size of the sorted set, not the number of admitted requests,
  because calls with equal clock readings write the same member.
- Redis key expiry, the Redis token set and its byte decoding.
- Budgets.CheckBudget: takes the table read and the cache fill as one step in one calendar month;
  BudgetRuns says what happens otherwise.
- Budgets.InsertAndSpend: takes insert and spend as one step; BudgetRuns says what happens otherwise.
- RouterSpec.AttemptsAreAPrefix: is about undisturbed requests; RouterSpec.PrefixIffNoGaps and
  RouterSpec.EveryoneAheadFailedOrWasDown say what holds under every interleaving.
- Pricing.EstimateCost: works on exact prices in cents; binary rounding of the floating-point sum is not
  modelled.
- Embeddings.Embed: takes lower-casing and the bucket hash as arbitrary functions, and numbers as exact
  reals with an exact square root.
- SemanticCaches.SemanticCache.GetSemantic: takes embedder and similarity as functions, and does not model
  the exact-key index that the same class keeps beside its lists.
- Completions.KeysAgreeExactly: takes SHA-256 as injective and a float as its shortest decimal text.
- Accounting.Accounts.RecordCompletion: runs its writes without other requests in between;
  Accounting.LedgersAgree covers every interleaving of them.
- Chat.Gateway.ChatCompletions: is the exact cache mode, for one request whose own segments run in order;
  what other requests do meanwhile reaches it through provider outcomes. Cache and books under full
  interleaving are covered by Completions.ExactCache and Accounting.
- Json.RoundTrip: keeps object members as they are printed, where a dictionary would keep one of several
  with the same key. RFC 8259 leaves lone surrogates open in its section 8.2; the reader here keeps them, as
  Python's does.
- Provider clients, network calls and their errors: a call is an arbitrary answer, retryable error, final
  error or unexpected exception.
- `prompt_text`, `list_all_models`, `optional_tenant` and the health route, which would only add easy members.
- Error reason texts, response identifiers, latencies, logging, tracing and metric labels other than the
  tenant.
- PII redaction, key store, admin endpoints, settings, database sessions, deployment and the admin UI.
