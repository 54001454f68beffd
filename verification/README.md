# A verified model of the agent gateway's core

This project models, in Dafny, the stateful core of the agent gateway and proves what its documentation and
code rely on. Each module follows one component:

| module | component |
|---|---|
| `Text`, `AuditChain` | the text that an audit row is hashed over, the hash chain, `VerifyChain` |
| `Wrappers` | values that may be absent |
| `AuditProtocol` | appends under a per-tenant lock, as a state machine over all interleavings of transactions |
| `RateLimit` | the rate limiter's theoretical-arrival-time (TAT) script |
| `CircuitBreaker` | the per-provider breaker |
| `ProviderRegistry`, `Fallback` | the priority list, the scan for healthy providers, retries and fallback |
| `ToolRegistry`, `ToolCacheRaces` | tool definitions and their cache, one operation at a time and interleaved |
| `ToolLoop` | validation of requested tools and the bounded tool loop |
| `Scopes`, `Grants`, `Delegation` | scope sets, grant lifecycle and chain revocation, the delegation middleware and its budget |
| `Guardrail` | merging two classifiers and choosing the violation to report |

Objects that the gateway updates in place are classes whose methods state their whole new state. Loops are
methods with invariants. Protocols in which several parties take turns are state machines, and their theorems
hold in every state of every run. Clocks, transport failures, the answers of models, executors, databases and
classifiers, and the order in which a Go map is walked are parameters or free choices.

SHA-256, the JSON decode-and-re-encode of the writer, the text that PostgreSQL's `jsonb` gives back and Go's time
format are function parameters. Of the hash nothing is assumed but its length, and of `jsonb` nothing at all.
`AuditChain.Lawful` assumes of the others that re-encoded JSON is stable, and that formatted times contain no separator
and tell instants apart; the theorems about appends and runs do without even that.

## Where the code and its documentation disagree

The model follows the code.

- A fresh rate-limit key admits limit + 1 units in one instant, not limit as README.md:201 says
  (`RateLimit.FreshKeyIsFullBucket`, `RateLimit.CostCeiling`).
- `VerifyChain` from a number greater than 1 compares the first row it reads with the genesis hash, so it rejects
  intact chains (`AuditChain.SuffixAcceptedIff`).
- The log is documented as verifiable. A payload that `jsonb` respells with another canonical form, such as the number
  `-0`, is appended without error and makes `VerifyChain` fail from that row on (`AuditProtocol.CommittedChainVerifiesIff`,
  `AuditProtocol.RespeltAppendIsRejected`).
- Severity, actor type and row id are not covered by the hash (`AuditChain.UnchainedFieldsAreFree`), and a `|` in
  an action is ambiguous (`AuditChain.SeparatorInActionIsAmbiguous`).
- `RevokeByChain` is documented to invalidate all grants of the chain. It does so only if the chain has an active
  grant (`Grants.RevokeTurnsAwayIff`).
- The effective scope is documented as the intersection. The middleware computes it, checks that it is not empty,
  and drops it (`Delegation.ScopeAllows`).
- The budget claim in a grant is documented as never trusted. A claim that is not positive skips the pool
  (`Delegation.FreePassIff`).
- The grants table admits the classification `optional`, which the propagation check does not rank: a root so
  classified constrains nothing (`Delegation.ClassificationIgnoredIff`).
- A merge logic that is none of the three known ones never reports a violation (`Guardrail.ViolationsByInput`).
- Cached tool definitions are documented as invalidated after every change. A read overtaken by a change puts the old
  definition back, where it stays (`ToolCacheRaces.QuiescentCacheIsCurrentIff`, `ToolCacheRaces.OvertakenReadStaysStale`).
- A final answer that arrives on the last permitted recall is labelled as if the loop had been cut off
  (`ToolLoop.FinishedAnswerLabelledIff`).
- When all classifiers must agree, the violation reported may be one on which they did not (`Guardrail.AgreedReportedIff`).

## Model

| member | source | states |
|---|---|---|
| Text.HexInjective | internal/domain/audit.go:37-71 | Hex encoding loses nothing. |
| Text.HexPlaces | internal/domain/audit.go:37-71 | Each byte is two lower-case hex digits, the high one first. |
| Text.DecimalRoundTrip | internal/domain/audit.go:37-71 | A decimal number reads back as itself. |
| Text.UuidStringInjective | internal/domain/uuid.go:50-52 | Different UUIDs have different texts. |
| Text.UuidLayout | internal/domain/uuid.go:50-52 | Dashes after the digits of bytes 4, 6, 8 and 10; all else is the hex of the bytes in order. |
| AuditChain.BuildersAgreeIff | internal/adapter/postgres/audit_repository.go:73-93 | The writer's and the verifier's hash inputs coincide exactly when the payload is already canonical and the time zone does not show in the formatted time. |
| AuditChain.InputFieldsInOrder | internal/domain/audit.go:53-70 | Between its separators the hashed text holds link, number, tenant, actor, action, entity type, entity, payload and time, in this order; a separator inside a text only adds fields. |
| AuditChain.MicrosTruncates | internal/domain/audit.go:56-61 | Truncation leaves a whole number of microseconds, less than one before the time. |
| AuditChain.ChainInputDetermines | internal/domain/audit.go:37-71 | With no condition on the texts, two events share a hash input exactly when link, number, tenant and actor agree, the times lie in the same microsecond, and the joined middle reads the same. |
| AuditChain.ChainInputInjective | internal/domain/audit.go:37-71 | When actions and entity types hold no separator, equal inputs mean equal chained fields, and conversely. |
| AuditChain.SeparatorInActionIsAmbiguous | internal/domain/audit.go:37-71 | For every event, moving a separator between action and entity type keeps input and verdict. |
| AuditChain.VerifyChain | internal/adapter/postgres/audit_repository.go:389-460 | Valid exactly when every row has the right link and hash; otherwise it names the first row that has not, its position and which of the two failed. |
| AuditChain.AcceptedPrefix | internal/adapter/postgres/audit_repository.go:404-457 | Rows cut off the end are not noticed. |
| AuditChain.AcceptedExtend | internal/adapter/postgres/audit_repository.go:404-457 | An accepted chain stays accepted with one more row exactly when that row links to the last hash and hashes correctly. |
| AuditChain.SuffixAcceptedIff | internal/adapter/postgres/audit_repository.go:389-430 | A proper suffix of an intact chain is accepted exactly when the row before it hashed to zeros. |
| AuditChain.UnchainedFieldsAreFree | internal/domain/audit.go:37-83 | Severity, actor type and id of any row of an accepted chain can be rewritten unnoticed. |
| AuditChain.TamperEvident | internal/adapter/postgres/audit_repository.go:389-460 | Two accepted logs of any lengths with the same final hash and no separators agree row by row on every covered field, the time to the microsecond and payloads as JSON; or the lemma returns two distinct inputs of these logs with one hash, or, only if the lengths differ, an input that hashes to the genesis value. |
| AuditProtocol.ConfirmedRowVerifies | internal/adapter/postgres/audit_repository.go:276-356 | A row that passes the writer's three comparisons has the intended number and link, in whatever zone its time comes back, and verifies exactly when its payload survives `jsonb`, or else the two hashed texts collide. |
| AuditProtocol.WrittenVerifiesIff | internal/adapter/postgres/audit_repository.go:73-93 | The same for any row inserted by an append. |
| AuditProtocol.PayloadMayNotSurvive | internal/adapter/postgres/audit_repository.go:60-70 | A library under which no row written from `-0`, in any chain, verifies. |
| AuditProtocol.FirstAppendIsRun | internal/adapter/postgres/audit_repository.go:243-356 | For every library and every draft whose payload is JSON, a run of five steps that commits it as the first row of its tenant. |
| AuditProtocol.RespeltAppendIsRejected | internal/adapter/postgres/audit_repository.go:243-460 | Under that library every draft of `-0` is so committed, and `VerifyChain(1, k)` reads its row and rejects it for every k > 0. |
| AuditProtocol.AppendWithTx | internal/adapter/postgres/audit_repository.go:243-356 | Which of the four outcomes occurs; the time inserted is whole microseconds and less than one before now; an appended row has the draft's columns, the next number and the right link, and verifies exactly when its payload survives `jsonb` or texts collide. |
| AuditProtocol.StepKeepsInv | internal/adapter/postgres/db.go:42-62 | Every step of every transaction (begin, lock, read last, insert, commit, roll back, fail) keeps the invariant that each tenant's committed rows, and those rows with the lock holder's own, are numbered 1 to n, linked, and written from drafts. |
| AuditProtocol.RunInv | internal/adapter/postgres/db.go:42-62 | The invariant holds in every state of every run. |
| AuditProtocol.QueryIsPrefix | internal/adapter/postgres/audit_repository.go:389-403 | The rows from 1 to k in order of number are the first min(k, n) rows of the chain and no others. |
| AuditProtocol.EveryCommittedChainIsLinked | internal/adapter/postgres/audit_repository.go:243-356 | In every state of every interleaving, whatever is appended, each tenant's committed rows are numbered 1 to n without gap or repetition, each carries its predecessor's hash, and each was written from a draft of the run. |
| AuditProtocol.CommittedChainVerifiesIff | internal/adapter/postgres/audit_repository.go:243-460 | In every such state `VerifyChain(1, k)` accepts exactly when every payload among the first k rows survives `jsonb`, collisions apart. |
| AuditProtocol.EveryCommittedChainVerifies | internal/adapter/postgres/audit_repository.go:243-460 | When every payload of the run survives `jsonb`, `VerifyChain(1, k)` accepts in every state of every interleaving, for every tenant and every k. |
| AuditProtocol.MismatchNeverFires | internal/adapter/postgres/queries/audit.sql:1-30 | With the numbering done by the INSERT statement, the three mismatch errors never occur under the lock. |
| RateLimit.Key.Script | internal/adapter/redis/ratelimit.go:25-79 | Decision, reply and stored key of one call, with the fallbacks for missing arguments. |
| RateLimit.Key.AllowWithCost | internal/adapter/redis/ratelimit.go:122-164 | No configured limit admits without touching the key; otherwise the script decides; when its call fails the request is admitted or becomes an error as configured, whether or not the script ran. |
| RateLimit.RefinesTokenBucket | internal/adapter/redis/ratelimit.go:46-75 | On every sequence of costed calls with a forward clock the decisions are those of a bucket of limit + 1 tokens refilled at limit per window. |
| RateLimit.FreshKeyIsFullBucket | internal/adapter/redis/ratelimit.go:46-60 | A key never seen is a full bucket. |
| RateLimit.WindowBound | internal/adapter/redis/ratelimit.go:46-75 | In any interval of length D, for any clock readings in any order, admitted cost is at most limit + 1 + D * limit / window. |
| RateLimit.ExpiryInvisibleIff | internal/adapter/redis/ratelimit.go:66-71 | Dropping the key at its PX deadline changes no decision of any forward run exactly when the emission interval is a whole number of milliseconds. |
| RateLimit.WholeIff | internal/adapter/redis/ratelimit.go:46-71 | That is the case exactly when the limit divides the window in milliseconds. |
| RateLimit.WindowBoundWithExpiry | internal/adapter/redis/ratelimit.go:50-71 | With expiring keys, for every quota and any stored state, admitted cost in any interval of a forward run is at most limit + 1 plus the refill of its length and of what rounding the PX value down gives away in it, which is nothing for whole intervals. |
| RateLimit.ExpiryBoundIsTight | internal/adapter/redis/ratelimit.go:60-71 | Every quota reaches that bound. |
| RateLimit.RetryAfterSuffices | internal/adapter/redis/ratelimit.go:60-75 | A refused call of admissible cost, repeated after d with nothing admitted in between, is admitted exactly when d reaches retry_after less one interval. |
| RateLimit.CostCeiling | internal/adapter/redis/ratelimit.go:46-65 | Cost above limit + 1 is never admitted; any lower cost is, once the backlog is gone. |
| RateLimit.RemainingIsHonest | internal/adapter/redis/ratelimit.go:60-75 | The reported number is one less than the further unit calls that fit into the instant, or 0. |
| CircuitBreaker.Breaker.AllowRequest | internal/domain/model/circuitbreaker.go:125-155 | Granted exactly as the transition function says, which also gives the new state. |
| CircuitBreaker.Breaker.RecordFailure | internal/domain/model/circuitbreaker.go:180-203 | The new state after a failure. |
| CircuitBreaker.Breaker.RecordSuccess | internal/domain/model/circuitbreaker.go:158-177 | The new state after a success. |
| CircuitBreaker.GrantsWaitForTimeout | internal/domain/model/circuitbreaker.go:110-155 | In every run with a forward clock, a grant given while not closed comes at least the timeout after every failure recorded so far. |
| CircuitBreaker.EpisodeBounds | internal/domain/model/circuitbreaker.go:110-203 | Each half-open episode grants at most halfOpenMaxRequests + 1 requests, the slot counter stays within its maximum, and the success counter counts the episode's successes. |
| CircuitBreaker.EpisodeBoundIsTight | internal/domain/model/circuitbreaker.go:110-155 | Every enabled breaker can reach that bound. |
| CircuitBreaker.ExhaustedUntilOutcome | internal/domain/model/circuitbreaker.go:125-155 | With its slots handed out, a half-open breaker refuses every request at every later time until an outcome or a reset. |
| CircuitBreaker.UnreportedGrantsAreNotReturned | internal/domain/model/circuitbreaker.go:125-155 | Requests without an outcome use up the slots one by one, for any number of them. |
| CircuitBreaker.TrailingFailuresIsMaximal | internal/domain/model/circuitbreaker.go:158-203 | The reference count is the longest suffix of failures. |
| CircuitBreaker.RefinesOutcomes | internal/domain/model/circuitbreaker.go:158-214 | In every run the failure counter is the trailing run of failures since the last close or reset, the breaker is closed exactly while that is below the threshold, and otherwise the counter equals the threshold. |
| CircuitBreaker.PhaseChangesIff | internal/domain/model/circuitbreaker.go:110-214 | After any history, exactly which call changes the phase and to what: opening by the failure that completes the threshold or any half-open failure, half-opening by a request or attempt after the timeout, closing by a reset or the success that completes the episode's threshold. |
| CircuitBreaker.GrantedIff | internal/domain/model/circuitbreaker.go:125-155 | After any history, exactly when a request is granted, in terms of the latest failure and of the requests granted in the episode. |
| CircuitBreaker.DefaultsAre | internal/domain/model/circuitbreaker.go:68-91 | The defaults 5, 2, 30 seconds and 3 for values that are not positive; all others are kept. |
| CircuitBreaker.DisabledIsInert | internal/domain/model/circuitbreaker.go:125-203 | A disabled breaker grants everything and never changes. |
| ProviderRegistry.PriorityListUnique | internal/usecase/chat/router.go:47-99 | The registrations determine the priority list. |
| ProviderRegistry.InsertKeepsOrder | internal/usecase/chat/router.go:75-99 | Removing and re-inserting a name yields the priority list of the longer history. |
| ProviderRegistry.Registry.Register | internal/usecase/chat/router.go:47-72 | After any registration the list has each registered name once, priorities do not fall along it, and equal ones come in the order of their latest registrations. |
| ProviderRegistry.Registry.GetHealthyProviders | internal/usecase/chat/router.go:110-131 | Exactly the enabled and granted providers in priority order; every enabled breaker was asked once. |
| ProviderRegistry.Registry.SelectProvider | internal/usecase/chat/router.go:134-148 | The first enabled, granted and serving provider; none exactly when there is none; every enabled breaker was asked once, selected or not. |
| Fallback.TryProvider | internal/usecase/chat/fallback.go:98-180 | For any answers, cancellations and entries of other requests in between: an attempt calls the provider exactly when the breaker grants it in the state that the earlier attempts and all others left, records what the provider answered, retries as the rules say, and ends by cancellation exactly when a wait was cut short. |
| Fallback.GrantsReportedOnce | internal/usecase/chat/fallback.go:101-160 | However other requests' entries are interleaved, this request's next use of the breaker after asking is a report exactly when it was granted, and it never reports without a grant. |
| Fallback.TrialLength | internal/usecase/chat/fallback.go:200-240 | A trial makes at most max retries + 1 attempts, whatever the rules. |
| Fallback.MentionsIff | internal/usecase/chat/fallback.go:216-219 | A rule applies exactly when it lists the text of a sentinel in the error; the five texts. |
| Fallback.RetriedIff | internal/usecase/chat/fallback.go:208-240 | A failed attempt is retried exactly below the limit that the first applying rule, the provider and the policy set, after the wait owed. |
| Fallback.RetryLimitIs | internal/usecase/chat/fallback.go:200-240 | That limit: the provider's or policy's for unavailable, timed-out and rate-limited providers without a rule, 0 for other errors without one, and at most the rule's with one. |
| Fallback.TriedExactly | internal/usecase/chat/fallback.go:98-180 | A provider granted every time, never interrupted and always failing alike is tried exactly once more than that; one that keeps timing out, its retries and once more. |
| Fallback.TryCandidates | internal/usecase/chat/fallback.go:62-197 | Candidates in order, attempts within the sum of the bounds, every trial as the breakers and providers decided it, and every breaker left as its own attempts leave it. |
| Fallback.AnswerIsFirstSuccess | internal/usecase/chat/fallback.go:62-197 | An answer is what the named provider gave to the last attempt of the request, and no other attempt on any candidate was completed by a provider; without an answer none was. |
| Fallback.ScanCostsASlot | internal/usecase/chat/fallback.go:62-120 | A half-open provider gets its first attempt exactly when the scan left a second slot; otherwise it is refused until some outcome or reset. |
| Fallback.ExecuteWithFallback | internal/usecase/chat/fallback.go:62-197 | The candidates are the eligible providers in priority order, the trials run from the states the scan left, and what every breaker has seen afterwards. |
| ToolRegistry.InsertUnique | migrations/0018_tool_definitions.sql:1-40 | The unique index refuses an insert exactly when it would make a second active row. |
| ToolRegistry.UpdateUnique | internal/adapter/postgres/queries/tool.sql:18-29 | An update that keeps the tool active is refused exactly when the key has more than one row. |
| ToolRegistry.UpdateAnswer | internal/adapter/postgres/queries/tool.sql:18-29 | After an update the key answers every field of the new definition under the old row's id; after a deactivating one, nothing. |
| ToolRegistry.WriteThenInvalidate | internal/adapter/postgres/tool_repository.go:558-564 | A write under one key followed by dropping it keeps cache and database in agreement. |
| ToolRegistry.UpsertCoherentIff | internal/adapter/postgres/tool_repository.go:416-460 | An upsert keeps cache and database in agreement exactly when the definition is inactive, its key is not cached, or the cached definition already says the same. |
| ToolRegistry.UpsertAnswer | internal/adapter/postgres/queries/tool.sql:36-51 | An active upsert becomes the answer for its key in every field, under the id of the row it replaces; an inactive one changes no answer; the index always holds. |
| ToolRegistry.ToolRepository.GetByName | internal/adapter/postgres/tool_repository.go:66-111 | Which of the three results occurs; every answer is the database's current answer, cached or not. |
| ToolRegistry.ToolRepository.CreateToolDefinition | internal/adapter/postgres/tool_repository.go:135-188 | When it commits, the new rows, and that cache and database stay in agreement. |
| ToolRegistry.ToolRepository.UpdateToolDefinition | internal/adapter/postgres/tool_repository.go:193-282 | Exactly when it succeeds; then the new rows, the answer field by field under the same id, and the hash-changed flag against the definition in force. |
| ToolRegistry.ToolRepository.DeactivateToolDefinition | internal/adapter/postgres/tool_repository.go:369-411 | Exactly when it succeeds; then the key has no answer and is not cached, and other keys answer as before. |
| ToolRegistry.ToolRepository.InitFromConfig | internal/adapter/postgres/tool_repository.go:465-521 | All seeds or none; the cache is emptied after a commit. |
| ToolRegistry.SeededAnswer | internal/adapter/postgres/tool_repository.go:465-521 | After seeding, a key answers every field of its last seed, under the id it had, and keys without a seed answer as before. |
| ToolCacheRaces.StepKeepsInv | internal/adapter/postgres/tool_repository.go:66-111 | Every interleaved step of readers, writers and evictions keeps the cache invariant. |
| ToolCacheRaces.AnswerWasCurrentSinceRead | internal/adapter/postgres/tool_repository.go:66-111 | In every run, an answer of the lookup, from the cache or not, is one the database gave at or after the start of the read behind it. |
| ToolCacheRaces.StaleAnswerIff | internal/adapter/postgres/tool_repository.go:558-572 | An answer is stale exactly when a commit its read did not see changed it and no later one restored it; such a commit exists exactly when its invalidation is pending or went by between the read's query and its add. |
| ToolCacheRaces.QuiescentCacheIsCurrentIff | internal/adapter/postgres/tool_repository.go:558-572 | With no writer between commit and invalidation, an entry's answer changed since it was read exactly when the read was overtaken, and the whole cache is current exactly when every change that overtook a read was undone. |
| ToolCacheRaces.OvertakenReadStaysStale | internal/adapter/postgres/tool_repository.go:66-111 | A run in which an overtaken read leaves a stale entry with no writer left. |
| ToolLoop.ValidateTools | internal/api/handlers/chat.go:217-273 | Accepted means every function tool is active in the registry with the requested hash, and each result is the registry's definition, in order; rejected names the first tool that is not and its error. |
| ToolLoop.ValidatedOnFields | internal/api/handlers/chat.go:241-269 | Each validated tool stems from a function tool held active under the requested hash, and carries the registry's name, description, schema, grants, limits and hash. |
| ToolLoop.RefusalOnFields | internal/api/handlers/chat.go:226-259 | Which of the three errors a tool that is not endorsed gives. |
| ToolLoop.HandleCall | internal/usecase/chat/orchestrator.go:238-326 | A call runs exactly when it is authorized, still endorsed by the registry at that moment and free of approval; what is recorded in each case. |
| ToolLoop.RunsOnFields | internal/usecase/chat/orchestrator.go:238-326 | On the request's own fields, exactly when a call runs; the executor is handed the last tool validated under the name. |
| ToolLoop.RefusedBecause | internal/usecase/chat/orchestrator.go:240-300 | What a call that did not run is told. |
| ToolLoop.Feed | internal/usecase/chat/orchestrator.go:398-418 | A recall carries the original messages and one message per result of this round only. |
| ToolLoop.ExecuteToolLoop | internal/usecase/chat/orchestrator.go:192-347 | For any model and executor: at most the limit of recalls, one result per call in order, each round starting from the previous answer, and exactly how it ends. |
| ToolLoop.RecalledUntilLimit | internal/usecase/chat/orchestrator.go:203-346 | A model that always asks for tools is recalled exactly maxIterations times, or five, and its last answer is labelled. |
| ToolLoop.RunMatchesRequest | internal/usecase/chat/orchestrator.go:228-345 | A tool runs in any round only if the request described it with a hash that the lookup gave, active, at validation and just before the run, and it needs no approval. |
| ToolLoop.RunWasDatabaseAnswer | internal/adapter/postgres/tool_repository.go:66-111 | The definition so looked up was the database's answer at or after the start of the read behind it, with the requested hash; and exactly when it is no longer current. |
| ToolLoop.RevokedToolStopsRunning | internal/usecase/chat/orchestrator.go:252-285 | A tool the registry stops endorsing is refused in every later round. |
| ToolLoop.FinishedAnswerMayBeLabelled | internal/usecase/chat/orchestrator.go:336-346 | A run whose answer asks for no tools and is still labelled as stopped. |
| ToolLoop.FinishedAnswerLabelledIff | internal/usecase/chat/orchestrator.go:336-346 | Over every history, an answer that asks for no tools carries the label exactly when the limit of recalls was used up and the last brought it, or the model wrote the label itself. |
| Scopes.NewScopeSet | internal/domain/delegation/grant.go:15-29 | Sorted, without repetition, the same scopes. |
| Scopes.CanonicalUnique | internal/domain/delegation/grant.go:10-29 | Two sorted, repetition-free lists with the same members are equal. |
| Scopes.LeqIff | internal/domain/delegation/grant.go:27-28 | The order is that of a dictionary. |
| Scopes.Intersection | internal/domain/delegation/grant.go:33-52 | The loops compute the reference intersection, errors included. |
| Scopes.MeetIsIntersection | internal/domain/delegation/grant.go:31-52 | The reference fails exactly when nothing is shared and otherwise holds exactly the shared scopes, sorted. |
| Scopes.EffectiveIsCommon | internal/domain/delegation/validators.go:15-20 | Along any chain of scope sets the effective scope is, in canonical form, what every hop has; with at least one delegation it fails exactly when that is nothing. |
| Scopes.NeverWidens | internal/domain/delegation/validators.go:15-20 | One more hop only removes scopes. |
| Scopes.HopOrderIrrelevant | internal/domain/delegation/validators.go:15-20 | Order and repetition of hops do not matter. |
| Grants.TerminalIffStuck | internal/domain/delegation/lifecycle.go:17-50 | Terminal statuses are exactly those nothing leaves. |
| Grants.TransitionsAre | internal/domain/delegation/lifecycle.go:17-50 | The six transitions and the three terminal statuses. |
| Grants.LivesAre | internal/domain/delegation/lifecycle.go:26-50 | The seven lives of a grant from its issue. |
| Grants.LivesAreShort | internal/domain/delegation/lifecycle.go:26-50 | Every life has at most two transitions, repeats no status, and is consumed only from active. |
| Grants.Grant.ApplyTransition | internal/domain/delegation/lifecycle.go:52-60 | Succeeds exactly when allowed; otherwise nothing changes. |
| Grants.GrantTable.Create | internal/adapter/postgres/delegation_repository.go:107-128 | Adds the row exactly when its key is free. |
| Grants.GrantTable.UpdateStatus | internal/adapter/postgres/delegation_repository.go:163-178 | Overwrites the status of exactly the named row, unconditionally. |
| Grants.GrantTable.RevokeByChain | internal/adapter/postgres/delegation_repository.go:248-260 | Every active grant of the chain becomes revoked, nothing else changes; the generation grows by their number, up-to-date grants are turned away exactly when there was one, and other chains' generations stay. |
| Grants.GenerationGrows | internal/adapter/postgres/delegation_repository.go:198-209 | Between two tables that follow each other the revoked count grows, strictly exactly when a grant was revoked in between. |
| Grants.GenerationNeverDecreases | internal/adapter/postgres/delegation_repository.go:198-209 | Over every legal run no chain's generation decreases. |
| Grants.CheckPassesIffUnrevoked | internal/domain/delegation/validators.go:132-140 | At any later point of a legal run the check passes a grant exactly when no grant of its chain was revoked since it was issued. |
| Grants.RevokeTurnsAwayIff | internal/adapter/postgres/delegation_repository.go:245-260 | Revoking a chain turns away its up-to-date grants exactly when it had an active one, and touches no other chain. |
| Grants.IssuedChainSurvivesRevocation | internal/adapter/postgres/delegation_repository.go:245-260 | A chain that revocation leaves as it was. |
| Grants.BlindWriteLowersIff | internal/adapter/postgres/delegation_repository.go:163-178 | An unconditional status write lowers the generation exactly when it replaces a revocation. |
| Grants.OvertakenRevocationIsLost | internal/adapter/postgres/delegation_repository.go:163-178 | Two overlapping callers through which a turned-away grant passes again. |
| Delegation.BudgetPool.RunScript | internal/adapter/redis/delegation_budget.go:21-44 | All or nothing, never below zero, a missing pool is no budget. |
| Delegation.BudgetPool.DecrementBudget | internal/adapter/redis/delegation_budget.go:88-105 | The charge and what the caller learns of it, for each way the call can be lost. |
| Delegation.ScopeAllows | internal/middleware/delegation.go:110-121 | Passes exactly when there is no parent scope or some scope is shared. |
| Delegation.Handle | internal/middleware/delegation.go:70-226 | The first failing check of the ordered pipeline decides the error; the pool changes only when all are clear, by at most one unit. |
| Delegation.PassedIff | internal/middleware/delegation.go:90-213 | A delegated request passes exactly when all checks are clear and the budget step lets it through. |
| Delegation.VerdictIsOwed | internal/middleware/delegation.go:90-213 | The verdict as a table over the request's own fields: which error each violation is owed when the earlier checks hold. |
| Delegation.PassedOnFields | internal/middleware/delegation.go:90-213 | What every request that passes has: its tenant, an issued or active grant in time, a shared scope, depth, intent, classification, generation and children within bounds, no cycle, and a charged pool. |
| Delegation.RefusedForBudgetOnly | internal/middleware/delegation.go:200-213 | A request that meets all of these is refused for its budget or not at all, and exactly when. |
| Delegation.VerdictUnique | internal/middleware/delegation.go:90-213 | Request and pool determine verdict and new pool. |
| Delegation.VerdictExists | internal/middleware/delegation.go:90-213 | Every request has a verdict on every pool. |
| Delegation.RefusedSpendsIff | internal/middleware/delegation.go:200-213 | A refused request spends exactly when the script ran for it, its reply was lost and the middleware fails closed. |
| Delegation.FreePassIff | internal/middleware/delegation.go:200-213 | When a request passes without a charge. |
| Delegation.PassedMeansUnrevoked | internal/middleware/delegation.go:152-168 | Over any legal history of the grants table, a request that passes was not overtaken by a revocation in its chain. |
| Delegation.BudgetConserved | internal/adapter/redis/delegation_budget.go:21-105 | Over any interleaving, with any losses, the initial pool is the pool plus the charges, and it never becomes negative. |
| Delegation.PassesAreCharges | internal/middleware/delegation.go:200-213 | Failing closed with positive claims, every pass is a charge, and every charge a pass if no reply is lost. |
| Delegation.PassesWithinBudget | internal/middleware/delegation.go:90-213 | Then passes never exceed the initial budget, and with no lost reply the pool and the passes account for all of it. |
| Delegation.HopsNeverRepeat | internal/middleware/delegation.go:142-150 | Along any sequence of accepted hops no delegate appears twice. |
| Delegation.ClassificationIgnoredIff | internal/domain/delegation/validators.go:89-130 | For a request that is otherwise clear, the grant's classification is of no consequence exactly when the root's is not one of the three ranked ones, `optional` among them. |
| Guardrail.Group | internal/adapter/guardrail/composite.go:391-432 | Every mentioned name has all that was said under it, local first, and who said it. |
| Guardrail.Decide | internal/adapter/guardrail/composite.go:434-497 | What each policy detects and which detection it shows, ties and empty names included. |
| Guardrail.MergeResults | internal/adapter/guardrail/composite.go:391-526 | However the map is walked: one entry for each mentioned name, the one the policy prescribes, detected names before all others, and violated exactly when the policy detects something. |
| Guardrail.OrderOnlyPermutes | internal/adapter/guardrail/composite.go:438-524 | Two walks give the same verdict and the same categories up to order. |
| Guardrail.AllImpliesAny | internal/adapter/guardrail/composite.go:438-476 | What all must agree on, any one finds. |
| Guardrail.ViolationsByInput | internal/adapter/guardrail/composite.go:443-497 | When each of the four policies finds a violation, in terms of the classifiers' categories. |
| Guardrail.WeightedAgreesIff | internal/adapter/guardrail/composite.go:443-497 | Weighted and any violation agree exactly when nothing is detected or something is detected with a confidence that is not negative. |
| Guardrail.WeightedIsAnyViolation | internal/adapter/guardrail/composite.go:443-497 | With names and no negative confidence both admit exactly the same merged results. |
| Guardrail.ClassificationToViolation | internal/adapter/guardrail/composite.go:615-651 | Reports the first of the most confident positive detections, critical exactly at or above its threshold. |
| Guardrail.ReportedIff | internal/adapter/guardrail/composite.go:391-651 | From classifiers to report, under every policy: a violation is reported exactly when the policy finds one and some category shown was detected with positive confidence. |
| Guardrail.ReportedByInput | internal/adapter/guardrail/composite.go:391-651 | Under any violation or by weight: exactly when some classifier detected something with positive confidence. |
| Guardrail.ReportedWhenAllAgree | internal/adapter/guardrail/composite.go:449-651 | When all must agree: exactly when some category was detected by every classifier that ran and, under some name, the first of the most confident opinions is a positive detection. |
| Guardrail.ReportIsStrongest | internal/adapter/guardrail/composite.go:391-651 | Under every policy the report names a category a classifier detected, and no detection shown is more confident; under any violation or by weight the policy detected it and no detection at all is more confident. |
| Guardrail.UnagreedMayBeReported | internal/adapter/guardrail/composite.go:452-524 | When all must agree, a category on which they did not may be reported. |
| Guardrail.AgreedReportedIff | internal/adapter/guardrail/composite.go:452-651 | When all must agree, the report names an agreed category exactly when every other positive detection shown is matched by an agreed one at least as confident: ties go to the agreed one on every walk. |

## Left out

- AuditProtocol: row-level security, triggers and serialization failures are not modelled; a transaction that fails rolls back.
- AuditProtocol: `VerifyChain` on a range that does not start at 1 is covered by `AuditChain.SuffixAcceptedIff` only.
- AuditChain.TamperEvident: assumes no separator in actions and entity types, because with one the property is false.
- RateLimit.Key.Script: exact arithmetic; rounding in Lua and truncation of returned values and of Retry-After to seconds are not modelled.
- RateLimit.Key.Script: a key is gone at its PX deadline; an expiry a little later is not modelled.
- Numbers are unbounded: 32- and 64-bit overflow of sequence numbers, counters and budgets is not modelled.
- Strings are sequences of characters ordered by code point, as Go's byte order is for UTF-8.
- CircuitBreaker.Breaker.AllowRequest: each method is one atomic step, as under the breaker's mutex.
- Fallback.ExecuteWithFallback: a wait is modelled only by whether it is cut short, and the clock between calls is arbitrary; the per-attempt timeout is part of the provider's answer.
- Fallback.TryCandidates: what other requests do to a breaker after this request's last use of it is not part of its stated final state.
- ToolRegistry.ToolRepository.GetByName: the cache is a map whose entries may vanish; the eviction order of the LRU library is not modelled.
- ToolLoop.HandleCall: parsing of arguments, cost and audit of a step (a stub in the code), and resource limits inside the executor are not modelled; the executor is handed the validated tool that carries them.
- ToolLoop.Feed: an output is text; the formatting of structured outputs is not modelled.
- Delegation.Handle: the second tenant comparison and the test for a negative remainder are omitted, since the steps before them exclude both.
- Delegation.BudgetConserved: re-initialising a pool during a run is not modelled; `InitBudget` overwrites it.
- Guardrail.Decide: confidences are exact numbers, so not-a-number is not modelled.
- Guardrail.ReportedIff: assumes that categories have names, because the report drops an unnamed one and which of several equally confident entries comes first then depends on the walk.
- Calling the classifiers, their timeouts, costs and circuit breaking; local pattern matching.
- Human approval workflow, refresh tokens, JSON web tokens, password hashing, quotas, pricing, roles, tenants and users: mostly single-row operations.
- HTTP handlers other than tool validation, routing, configuration, streaming, logging and the WASM runtime.
