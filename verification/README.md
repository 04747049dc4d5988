# Orjanda in Dafny

Orjanda is a document framework with an embedded agent runtime. This project
models the parts of it whose behaviour is hardest to see from the code, and
proves what they promise. Each module follows one component; code that changes
state step by step is a class or a method with loops, proved against a
specification function or relation, and the results about whole runs are lemmas
about those specifications.

| component | modules |
|---|---|
| LRU cache with TTL | LruModel, LinkedList, LruStore, LruInclusion, LruTwins |
| application graph and registration order | Walks, AppGraph, AppDag, RegistryOrder |
| struct types to fields | TypeParser, SchemaTypes |
| agent runtime, approval gate, plan mode | Transcript, RunLog, Safety, AgentRuntime, PolicyVerbs |
| Anthropic request | AnthropicAdapter |
| approval round trip over the WebSocket | ApprovalProtocol, WsGateway |
| model gateway and circuit breaker | CircuitBreaker, ModelGateway |
| the two rate limiters | SlidingWindow, RateLimiter, AgentRateLimit |
| schema migration | Dialects, DdlText, Migrator, Convergence |
| queries | SelectSql, Query, Values, Ordering |
| document engine and audit log | Audit, DocumentModel, DocumentEngine, DocumentEffects, DocumentRuns, AuditReplay |
| workflow engine | Workflow, WorkflowRuns |
| tool names | Strings, ToolNames |

`dafny verify dfyconfig.toml` checks the whole project.

Conventions. Go errors are `Result` or `Option` values. Times are integers, in
nanoseconds unless a name says otherwise, and each clock reading is a parameter.
What a component calls but does not decide is arbitrary: a model's answer, a
human's answer, plan validation, tool handlers, what a reference resolves to and
JSON decoding are any value (`:= *`); hooks, guards, permissions, field validation
and failing database calls come with each call as functions or flags. Loops over
Go maps take the keys in any order. Strings are ASCII.

## Findings

Where the code and its comments, or a plausible promise, part ways, the model
follows the code and a lemma says exactly how.

- Batching tool results does not make every Anthropic request alternate between
  user and assistant, as the comment above the batching says
  (agent/llm/anthropic.go:119-121); `AlternationCondition` and
  `RequestAlternates` give the exact condition and `GrammarDoesNotAlternate` a
  transcript.
- The breaker has no half-open state (agent/llm/gateway.go:180-213): the first
  call after the cooldown opens it again only when the threshold is one
  (`NoSingleProbe`); otherwise it takes a full threshold of failures, and exactly
  that (`OpensAgain`).
- The TTL of the agent's rate-limit window can change a decision, since the
  cutoff is read before the cache looks at its own clock; `ExpiryDecidesNothing`
  gives the exact condition and `ExpiryDecidesARun` a run. The bound per minute
  holds all the same (`MinuteBound`).
- The HTTP limiter reads the clock before it takes the lock. When the two orders
  agree the bound holds (`WindowBound`); in every lock order it holds exactly for
  a limit of one (`EveryOrderOnlyForOne`), and `LateStampBreaksBound` breaks it
  for every other limit.
- A second answer for one approval id can leave the gateway's mutex held for
  good (`SecondAnswerCanDeadlock`): exactly when the request no longer waits and
  its channel is full (`ReleasedExactly`, `BlockedForGoodExactly`).
- Answers that arrive after their request has closed are never taken out of the
  early buffer: after sixteen of them no early answer is accepted again
  (`LateAnswersFillBuffer`, `RoomExactly`).
- A plan is cleared on its arguments as written and dispatched with references
  resolved, so a reference can become an array over the bulk limit without
  anybody being asked; `ResolvedRunsUnasked` gives the exact condition and
  `ReferenceHidesBulk` the input.
- A count on record hides an argument over the bulk limit: when a list or search
  of the DocType returned a few records, that number is looked at in place of the
  arguments (agent/safety/safety.go:189-192); `CountHidesBulk` is the case and
  `BulkIsApproved` says that only this and references escape the limit.
- The migrator's text filter can drop a statement that says DROP COLUMN only in a
  name, as for a DocType named "drop column item" (`NamedLikeADrop`);
  `MigrationConverges` says which names keep a migration from converging, and
  `NeverAltered` what becomes of the columns.
- The two database types differ on a search over a document without searchable
  fields when the Select already has ids (`TwinsAgree`), and on reads of child
  tables, where only SQLite leaves the deleted condition out. `TwinReplies` says
  exactly when they reply alike, and `KeptByOne` which rows make the difference.
- A deletion's audit entry is diffed against the deleted flag alone, so the
  replay of a deleted record loses everything else (`LogRebuildsRows`).
- An update that carries another id breaks the replay of the record: SQLite
  leaves the id column out of the UPDATE but not out of the entry, PostgreSQL
  moves the record away from its entries. `UpdateRecorded` says that nothing else
  in a successful update does. The id can come from a hook or from the caller: the
  HTTP handler passes a patch on as it came (api/rest/handlers.go:121-131), and
  FilterWrite keeps the key (perm/engine.go:299-304); `PatchedIdBreaksReplay` is
  that input.
- A site starts with an audit log that is not part of the transaction, and stays
  with it when there is no raw connection (site.go:76, site.go:132-135). When a
  commit fails then, the entry stays: it breaks the record's workflow chain
  exactly when the transition goes to another state (`EntriesChain`,
  `StepEffect`, `FailedCommitBreaksChain`), and the replay of a document exactly
  when the entry tells of a change (`AlwaysFaithful`).
- A filter on a column named q is taken for a search (`ColumnNamedQ`).
- Execute tries only the first transition that fires, so an available one behind
  it cannot be reached (`AvailableChosen`).

## Model

| member | source | states |
|---|---|---|
| `LruStore.Store.constructor` | cache/cache.go:58-68 | An empty store; a non-positive size selects the default of 1024 |
| `LruStore.Store.Get` | cache/cache.go:72-89 | List and map go through exactly the step of the recency-ordered sequence, and the value returned is the sequence's: an expired entry is dropped and missed, a hit moves to the front |
| `LruStore.Store.Set` | cache/cache.go:94-122 | Likewise for a store: an existing key is overwritten and moved to the front, a new key evicts the last entry of a full store and no other |
| `LruStore.Store.Delete` | cache/cache.go:125-132 | Exactly the entry of the key leaves the sequence |
| `LruStore.Store.RemoveElement` | cache/cache.go:141-144 | A node is taken out of map and list together |
| `LruStore.Store.EvictLRU` | cache/cache.go:150-154 | Exactly the least recent entry is dropped |
| `LruStore.Store.Run` | cache/cache.go:72-154 | Any sequence of calls at any clock readings: the linked list plus map refine the sequence model, and every answer is the model's |
| `LruModel.StepKeepsOthers` | cache/cache.go:94-122 | Keys stay distinct and the size within the capacity; the entry of another key changes only when a new key arrives at a full store and the other is the least recent |
| `LruModel.StepOwnKey` | cache/cache.go:72-132 | What each operation leaves for its own key, and what a lookup returns, by whether the entry is there and has not expired |
| `LruModel.StepKeepsOrder` | cache/cache.go:72-154 | The other entries keep their order; only a new key at a full store drops the last of them |
| `LruModel.SetThenGet` | cache/cache.go:94-138 | A value can be had until its TTL is over, and for good without one |
| `LruStore.SameSize` | cache/cache.go:114-116 | The map has as many keys as the list has nodes, so the capacity test on the map bounds the list |
| `LinkedList.List.Unlink` | cache/cache.go:141-144 | container/list's remove on real prev/next pointers: the ring loses exactly that element |
| `LinkedList.List.MoveToFront` | cache/cache.go:85-85 | container/list's MoveToFront on real pointers: the element becomes the first, the rest keep their order |
| `LinkedList.List.PushFront` | cache/cache.go:117-120 | container/list's PushFront on real pointers |
| `LinkedList.List.Back` | cache/cache.go:151-151 | container/list's Back: the last element, nil for an empty list |
| `LruInclusion.StepKeepsInclusion` | cache/cache.go:72-154 | One operation on stores of capacities n <= m: the smaller recency list stays a subsequence of the larger, sizes drift apart by at most m - n, and a hit of the smaller is the same hit of the larger |
| `LruInclusion.Inclusion` | cache/cache.go:72-154 | LRU inclusion over whole runs, with deletes and lazy expiry: a bigger cache never turns a hit into a miss |
| `LruTwins.RunBoth` | cache/cache.go:58-154 | The same of the linked-list store itself: of two stores on the same calls and clock, what the smaller answers the larger answers alike |
| `AppDag.Resolver.Visit` | app/app.go:93-118 | The visit closure: on success everything visited is ordered and the invariant holds; an error names a real cycle or a really missing application; it ends because each call colours a new application |
| `AppDag.ResolveDAG` | app/app.go:81-127 | Succeeds exactly when the graph of listed applications is acyclic and every dependency is listed; the result then holds each once, dependencies first; an error is justified |
| `AppGraph.OrderImpliesAcyclic` | app/app.go:81-127 | The converse: an order with dependencies first exists only for an acyclic graph with every dependency listed |
| `AppGraph.ErrorRefutes` | app/app.go:97-110 | A justified error shows that the graph is cyclic or not closed and that no topological order of it exists |
| `RegistryOrder.CheckOrder` | schema/registry.go:71-89 | Compile's first step accepts exactly the registration orders in which no document precedes the first document of an application its own depends on |
| `RegistryOrder.ResolvedOrderPasses` | schema/registry.go:71-89 | Documents registered application by application in the order ResolveDAG returns always pass, however many each has |
| `TypeParser.ParseFieldsInternal` | schema/parser.go:17-129 | Ends on every finite type graph; fails exactly when some walk of child-table edges comes back to the path, naming a type where it does; otherwise returns the plain fields and one child table per child field, in order |
| `TypeParser.ParseStruct` | schema/parser.go:41-128 | The loop over the fields of a type on the path, up to its first error |
| `TypeParser.ParseField` | schema/parser.go:26-126 | What one field adds, and when it fails |
| `TypeParser.ParseFields` | schema/parser.go:13-15 | The circular error is returned exactly when a cycle of fields that hold rows is reachable from the root: slices of structs, unless a special name hides them and no tag says child_table. Otherwise there is one field for each other field and one child table for each of these, in order |
| `TypeParser.ChildHoldsRows` | schema/parser.go:46-61 | The parser takes exactly these fields for child tables |
| `TypeParser.FieldTypeTable` | schema/parser.go:131-180 | The field type of every Go kind: a special name goes before the kind, and what is neither is a string |
| `TypeParser.NamedTable` | schema/parser.go:137-157 | Each special name, with or without its package, gives its own field type, and only that name does |
| `Walks.RevisitIsCycle` | schema/parser.go:17-36 | From an empty path, coming back to a type on the walk is exactly reaching a cycle, in any finite graph |
| `AnthropicAdapter.BuildRequest` | agent/llm/anthropic.go:141-195 | The loop with its flush: the messages can be read back from the request, and the system parts are exactly the non-empty system texts |
| `AnthropicAdapter.RequestReadsBack` | agent/llm/anthropic.go:141-195 | Whatever the messages: role, text, calls and results of all but the system messages can be read back from the request, in order; only the tool's name of a result is not sent |
| `AnthropicAdapter.SystemPartsBuilt` | agent/llm/anthropic.go:157-161 | The system parts are the non-empty contents of the system messages, each once and in order |
| `AnthropicAdapter.PromptIsSystemText` | agent/llm/anthropic.go:157-194 | A request of this runtime has its own prompt as the one system text, none when it is empty |
| `AnthropicAdapter.BlocksConserved` | agent/llm/anthropic.go:141-195 | Whatever the messages: every content block is in the request once and in order, none lost or duplicated |
| `AnthropicAdapter.RequestAnswersAtOnce` | agent/llm/anthropic.go:141-195 | For every transcript in the grammar, each message with tool_use blocks is an assistant message immediately followed by one user message of exactly the matching tool_result blocks |
| `AnthropicAdapter.AlternationCondition` | agent/llm/anthropic.go:141-195 | For every list of messages: the request alternates between user and assistant exactly when the messages, system messages aside, change sides everywhere but inside a run of tool results |
| `AnthropicAdapter.RequestAlternates` | agent/llm/anthropic.go:119-195 | A request of this runtime, system prompt in front, alternates exactly when its transcript changes sides |
| `AnthropicAdapter.GrammarDoesNotAlternate` | agent/llm/anthropic.go:119-121 | A transcript in the grammar whose request, behind any system prompt, does not alternate, contrary to the comment in the code |
| `Transcript.Append` | agent/runtime/runtime.go:342-406 | Transcripts in the tool-call grammar compose |
| `Transcript.AppendCalls` | agent/runtime/runtime.go:375-388 | An assistant message with calls followed by exactly their results in order keeps the grammar |
| `AgentRuntime.Runtime.Execute` | agent/runtime/runtime.go:308-406 | One turn: rejected before anything is said, or the user's message comes next; the transcript stays in the grammar and the log acceptable on every exit, and a success ends with its text |
| `AgentRuntime.Runtime.Continue` | agent/runtime/runtime.go:348-406 | The turn's loop: steps of independent calls up to the limit, plan mode as soon as calls depend on each other; the step error only at the limit |
| `AgentRuntime.Runtime.Conversation` | agent/runtime/runtime.go:308-406 | Any number of turns, also after failed ones: the transcript is in the grammar at every model call, every dispatch was cleared, and none follows a refused plan in its turn |
| `AgentRuntime.Runtime.Chat` | agent/runtime/runtime.go:422-440 | The model is sent the system prompt and a transcript in the grammar, unless the budget check refuses |
| `AgentRuntime.Runtime.ReActStep` | agent/runtime/runtime.go:375-388 | The assistant's calls, none needing another's result, each gated and executed in order with its trail in the log, and exactly one result each in the transcript |
| `AgentRuntime.HasDataDependency` | agent/runtime/runtime.go:493-504 | True exactly when some call's arguments mention ref:j for an earlier call j |
| `AgentRuntime.Runtime.ObtainPlan` | agent/runtime/plan.go:22-40 | At most one correction turn; the transcript stays in the grammar whatever fails |
| `AgentRuntime.Runtime.ExecutePlanMode` | agent/runtime/plan.go:22-46 | Plan mode ends with an assistant text on every path |
| `AgentRuntime.Runtime.RequestPlanWith` | agent/runtime/plan.go:55-73 | Exactly the correction prompt, if any, and the plan text, if one was parsed, join the transcript |
| `AgentRuntime.Runtime.EvaluatePlan` | agent/runtime/plan.go:117-133 | The strictest reason among the steps that ask; none exactly when no step asks |
| `AgentRuntime.Runtime.PlanAsks` | agent/runtime/plan.go:117-138 | A plan needs confirmation exactly when some step would not run unasked |
| `AgentRuntime.Runtime.PlanApproval` | agent/runtime/plan.go:117-155 | One confirmation exactly when some step asks; approved only by the policy or by an approving answer |
| `AgentRuntime.Runtime.RunSteps` | agent/runtime/plan.go:86-106 | Each step of a cleared plan leaves one call with its result; only the plan's own steps are dispatched |
| `AgentRuntime.Runtime.RunValidatedPlan` | agent/runtime/plan.go:79-111 | A denied plan dispatches no step and adds only its closing text; otherwise only steps of the plan are dispatched |
| `AgentRuntime.Runtime.AppendPlanStep` | agent/runtime/plan.go:194-200 | A call and its result join the transcript and keep it in the grammar |
| `AgentRuntime.Runtime.ExecuteTool` | agent/runtime/executor.go:38-95 | Exactly one of the allowed trails: nothing for a tool off the allowlist; the policy's verdict and, when it does not ask or the answer approves, the dispatch with the arguments so cleared; in a cleared plan the dispatch alone |
| `AgentRuntime.Runtime.GateApproval` | agent/runtime/executor.go:101-130 | Goes on only after an approving answer, with the human's amended arguments when there are any |
| `AgentRuntime.Runtime.CountedBulkAsks` | agent/runtime/executor.go:53-64 | Once a list or search result of a DocType has been counted, every operation tool of that DocType is gated with the count, so none runs unasked over the bulk limit, and every other DocType's tools with none |
| `AgentRuntime.ResolveRefs` | agent/runtime/plan.go:213-244 | Same keys; everything but the references stays as it was |
| `AgentRuntime.ResolvedRunsUnasked` | agent/runtime/plan.go:86-126 | A plan is gated on unresolved arguments: a step that ran unasked still does once resolved exactly when no reference became an array over the bulk limit and the verb still runs unasked |
| `AgentRuntime.ResolvedVerb` | agent/runtime/plan.go:117-122 | The verb changes only when a workflow action's name is itself a reference |
| `AgentRuntime.ReferenceHidesBulk` | agent/runtime/plan.go:86-126 | A step with one reference runs unasked, and the array it becomes, however long, would not have |
| `AgentRuntime.Runtime.MarkSeen` | agent/runtime/executor.go:330-342 | Which DocTypes a call brings into the session; a record count is kept only for a DocType's own operation tool |
| `RunLog.DeleteNeedsApproval` | agent/runtime/executor.go:38-130 | In every acceptable log: a dispatched tool is on the allowlist, and every dispatch of a delete_ tool has an approving answer of its own right before it, with the arguments it gives, or is a step of a plan approved in the same turn, whatever the policy |
| `RunLog.DenialEndsTurn` | agent/runtime/plan.go:79-111 | In every acceptable log, and so over all turns: once a plan has been refused, no tool is dispatched in that turn any more |
| `RunLog.StepsLimited` | agent/runtime/runtime.go:362-367 | No turn of any run has more steps of calls than the limit |
| `RunLog.GatedIsCalled` | agent/runtime/runtime.go:369-388 | A call gated by itself belongs to an earlier step of its turn whose calls do not depend on each other |
| `RunLog.HowCleared` | agent/runtime/executor.go:53-70 | How any dispatch was cleared: by an approval of its own or of its plan, by the policy as it stands, or by the policy as an unresolved step of a plan |
| `RunLog.HumansArgumentsWin` | agent/runtime/executor.go:101-130 | A call approved by itself runs with the human's arguments, and with its own when there are none |
| `PolicyVerbs.VerbOfOperation` | agent/safety/safety.go:220-238 | The verb of every generated tool: the prefix without its underscore, read for get_, the lower-cased action for execute_action_ |
| `PolicyVerbs.OperationRunsUnasked` | agent/safety/safety.go:175-212 | When an operation tool runs unasked, by its operation, arguments and count alone: never a deletion, nothing over the bulk limit, no verb that a list or role demands or that no list grants |
| `PolicyVerbs.ReasonGiven` | agent/safety/safety.go:175-212 | Which reason a request for approval gives, first match first |
| `PolicyVerbs.DemandedIsApproved` | agent/safety/safety.go:175-212 | In every acceptable log: an operation whose verb is under approval is dispatched only with an approval of its own or in a plan approved in the same turn; only a workflow action can escape, through a reference that is itself a verb for automatic approval |
| `PolicyVerbs.BulkIsApproved` | agent/safety/safety.go:187-195 | Likewise for an argument over the bulk limit, unless a plan's reference became it or a recorded count within the limit was looked at instead |
| `PolicyVerbs.CountHidesBulk` | agent/safety/safety.go:187-195 | A call with a recorded count within the limit runs unasked whatever array it carries, and would not without the count |
| `RunLog.CallsWellFormed` | agent/runtime/runtime.go:422-440 | Every transcript sent to the model, in any run, is in the grammar behind the system prompt |
| `Safety.RequiresApprovalWithReason` | agent/safety/safety.go:175-212 | Approval is required exactly when the call is not one that runs unasked, under the strictest reason that applies and with the number of records counted |
| `Safety.BulkCount` | agent/safety/safety.go:254-262 | The size of the largest array argument, 0 without one, whatever the map order |
| `ApprovalProtocol.StepKeepsInv` | api/agent.go:251-301 | Every register, submit, receive, timeout, cancel and close step keeps the protocol invariant |
| `ApprovalProtocol.ProtocolSafety` | api/agent.go:251-301 | In every interleaving: no id is both early and pending, early holds at most 16, a request returns only an answer submitted for its own id, and no two requests return the same answer |
| `ApprovalProtocol.ResultsAreFinal` | api/agent.go:274-281 | What a request returned is never replaced |
| `ApprovalProtocol.NeverBlocks` | api/agent.go:289-301 | If each id is answered at most once, submit never blocks holding the mutex |
| `ApprovalProtocol.AcceptedIsReturned` | api/agent.go:251-301 | Then an accepted answer waits in the early buffer or the channel for its request, or was returned by it, unless that request timed out or was cancelled |
| `ApprovalProtocol.AnswerReachesRequest` | api/agent.go:251-301 | Unless a timeout or cancel step for it is in the run, a registered request has returned its accepted answer or waits with it in its channel |
| `ApprovalProtocol.OnlySecondAnswersBlock` | api/agent.go:289-295 | In every run a submit blocks only on a second answer for its id |
| `ApprovalProtocol.StuckForever` | api/agent.go:289-295 | Once it blocks after its request stopped receiving, no later step frees the mutex |
| `ApprovalProtocol.ReleasedExactly` | api/agent.go:274-295 | A blocked submit is released in some continuation exactly when its channel has been emptied or its request still waits |
| `ApprovalProtocol.BlockedForGoodExactly` | api/agent.go:289-295 | At the moment a submit blocks, the mutex can still be freed exactly when the request still waits |
| `ApprovalProtocol.SecondAnswerCanDeadlock` | api/agent.go:274-295 | That state is reached by a second answer between a timeout and the deferred delete |
| `ApprovalProtocol.LateAnswersStay` | api/agent.go:296-301 | An answer accepted after its request closed stays in the early buffer for good |
| `ApprovalProtocol.RoomExactly` | api/agent.go:252-301 | The early buffer can get room again exactly while fewer than sixteen such answers sit in it |
| `ApprovalProtocol.LateAnswersFillBuffer` | api/agent.go:252-301 | Any sixteen requests can come to be answered late; in every continuation an answer for an id without a channel is then dropped |
| `WsGateway.Gateway.Register` | api/agent.go:251-260 | The first critical section is the protocol's register step: an early answer is taken, or a fresh one-slot channel registered |
| `WsGateway.Gateway.Submit` | api/agent.go:289-301 | The second is its submit step, with the verdict the step gives |
| `WsGateway.Gateway.Receive` | api/agent.go:274-276 | Receiving is its receive step |
| `WsGateway.Gateway.Close` | api/agent.go:261-265 | The deferred delete is its close step |
| `ModelGateway.Gateway.constructor` | agent/llm/gateway.go:53-78 | Closed breakers for every provider, with the default threshold and cooldown for non-positive ones |
| `ModelGateway.Gateway.Try` | agent/llm/gateway.go:83-96 | A provider whose breaker is open is skipped; else exactly its breaker observes how the call ended |
| `ModelGateway.Gateway.ChatCompletion` | agent/llm/gateway.go:80-102 | Exactly the allowed providers are called, in order, up to the first success or error that is no failover error; the answer is the last one's, or the report that every breaker is open; no other breaker changes |
| `ModelGateway.Gateway.Serve` | agent/llm/gateway.go:80-102 | Any number of requests on one clock: each is served so, every provider's calls are a run of its own breaker, and the breaker's state is what that run leaves |
| `ModelGateway.ProviderIsSpared` | agent/llm/gateway.go:80-213 | So any threshold + 1 failover failures of one provider behind the gateway, with no success among them, span at least the cooldown |
| `CircuitBreaker.CounterCountsFailures` | agent/llm/gateway.go:199-213 | The counter stays below the threshold and equals the failover failures since the last success or opening |
| `CircuitBreaker.LetThroughExactly` | agent/llm/gateway.go:180-213 | A call is let through exactly when the cooldown is over since every call that filled the counter |
| `CircuitBreaker.FailuresSpanCooldown` | agent/llm/gateway.go:184-213 | Any threshold + 1 failover failures of one provider with no success among them span at least the cooldown, in every sequential run |
| `CircuitBreaker.OpensAgain` | agent/llm/gateway.go:184-213 | From an opening on, while no call succeeds, the breaker has opened again exactly when a full threshold of calls has failed since, and does so at the failure that completes it |
| `CircuitBreaker.NoSingleProbe` | agent/llm/gateway.go:180-213 | The first call after the cooldown opens the breaker again exactly when it fails and the threshold is one, where the comment describes a half-open state |
| `RateLimiter.Limiter.constructor` | api/middleware/ratelimit.go:23-36 | Non-positive limits select 1000 requests and one minute |
| `RateLimiter.Limiter.Compact` | api/middleware/ratelimit.go:49-56 | The in-place compaction keeps exactly the timestamps after the cutoff, in order |
| `RateLimiter.Limiter.Admit` | api/middleware/ratelimit.go:45-68 | One request changes its caller's window alone, by the specified step; a rejected one still stores the compacted window |
| `RateLimiter.Serve` | api/middleware/ratelimit.go:38-71 | Serving requests of any callers in lock order gives the verdicts of the run |
| `RateLimiter.AdmittedExactly` | api/middleware/ratelimit.go:45-68 | When lock order agrees with clock order, a request goes through exactly when fewer than limit of the caller's were admitted in the window that ends with it |
| `RateLimiter.WindowBound` | api/middleware/ratelimit.go:45-68 | Then no half-open interval of window length holds more than limit admissions of a caller |
| `RateLimiter.LateStampBreaksBound` | api/middleware/ratelimit.go:45-46 | The clock is read before the lock is taken: for every limit of two or more, a late stamp puts limit + 1 admissions into one window |
| `RateLimiter.SpacedOut` | api/middleware/ratelimit.go:45-68 | With a limit of one, admissions are a full window apart in every lock order |
| `RateLimiter.EveryOrderOnlyForOne` | api/middleware/ratelimit.go:45-68 | The window bound holds in every lock order, for all requests and callers, exactly when the limit is one |
| `SlidingWindow.SlidingBound` | api/middleware/ratelimit.go:48-68 | If every admission found room in the window before it, every half-open interval of that width is within the limit |
| `AgentRateLimit.Layer.CheckRateLimit` | agent/safety/safety.go:270-316 | The check over the linked-list cache is the specified step on the cache's sequence; without store, limit or identity it allows and touches nothing |
| `AgentRateLimit.MinuteBound` | agent/safety/safety.go:270-316 | No half-open minute holds more than OperationsPerMinute admissions of a key that is not evicted, whatever else uses the cache and however the four clock readings of a call fall |
| `AgentRateLimit.CheckAdmittedExactly` | agent/safety/safety.go:270-316 | A check is admitted exactly when fewer than OperationsPerMinute of the key were in the minute before its cutoff, or more than a minute has passed since the last was stored |
| `AgentRateLimit.Layer.SharesWindow` | agent/safety/safety.go:275-287 | Who shares a window: one session under scope session, a caller without one by user id; else one user |
| `AgentRateLimit.ExpiryDecidesNothing` | agent/safety/safety.go:289-310 | The TTL changes no decision, for any stored window, exactly when the entry has not expired at Get or the cutoff was read at least a minute of whole milliseconds after the entry was stored; in between it can admit what the cutoff alone would refuse |
| `AgentRateLimit.ExpiryDecidesARun` | agent/safety/safety.go:289-310 | A run of two checks on an ordered clock reaches such a cache, and the second is admitted only because of the expiry |
| `Dialects.DeclaredReadsBack` | dal/dialect/postgres/dialect.go:67-88 | On both dialects a column reads back as the type it was declared with, up to normal form, for every field type |
| `Dialects.SameTypeExactly` | dal/dialect/postgres/dialect.go:67-88 | For every field type, which live types pass for the declared one, on both dialects |
| `Migrator.CollectTargets` | dal/migrator.go:87-108 | The target tables in order with the document found for each name; a child table already named is skipped |
| `Migrator.Compare` | dal/migrator.go:126-178 | The alteration of a live table: wanted columns that are missing, types that differ in normal form, and live columns not wanted |
| `Migrator.Orphans` | dal/migrator.go:187-207 | Exactly the live tables not wanted that have both id and deleted |
| `Migrator.ComputeDiff` | dal/migrator.go:80-209 | New tables, one alteration for each live table that is not up to date in target order, and the orphans |
| `Migrator.AlterTable` | dal/dialect/postgres/dialect.go:92-113 | The additions, then the drops, then the type changes of an alteration, each in its order; on SQLite a type change is a comment |
| `Migrator.Write` | dal/migrator.go:213-267 | Refused with exactly the destructive statements when they are not allowed; else exactly the file: creations, alterations less those whose text says DROP COLUMN, table drops |
| `Migrator.FileHolds` | dal/migrator.go:238-267 | A statement is in the file exactly when it carries out the difference and neither the text filter nor the flag keeps it out |
| `DdlText.SaysAround` | dal/migrator.go:255-255 | The filter's words stand in a quoted name or in the text around it, never across a quote |
| `DdlText.AdditionSays` | dal/dialect/postgres/dialect.go:98-102 | An added column is taken for a dropped one exactly when the table's or the column's name, upper-cased, says DROP COLUMN, on both dialects and for every field type |
| `DdlText.TypeChangeSays` | dal/dialect/postgres/dialect.go:107-111 | So is a type change |
| `Convergence.WriteWrites` | dal/migrator.go:213-267 | What Write returns when it is not refused is what the results below start from |
| `Convergence.Converges` | dal/migrator.go:80-267 | With distinct names, when nothing but comments is left out of the file: after it has been applied the second difference is empty on PostgreSQL, and exactly the first one's type changes on SQLite |
| `Convergence.MigrationConverges` | dal/migrator.go:80-267 | And exactly then: it converges if and only if destruction is allowed or no column to add or retype, nor its table, has a name that says DROP COLUMN |
| `Convergence.NeverAltered` | dal/migrator.go:255-255 | A column to add or retype stays as it is, missing or of the old type, when its name or its table's says DROP COLUMN and destruction is not allowed |
| `Convergence.NamedLikeADrop` | schema/parser.go:230-232 | The table of a DocType named drop column item is there after the migration and still lacks the missing column |
| `Convergence.AllJustified` | dal/migrator.go:233-261 | Every statement of a difference is there for a reason in the registry and the live tables |
| `Convergence.WantedColumns` | dal/migrator.go:80-209 | Afterwards every wanted table has exactly the wanted columns |
| `Convergence.WantedType` | dal/dialect/sqlite/dialect.go:102-106 | Every wanted column has its declared type afterwards, except that SQLite keeps the type of a column that was there |
| `Convergence.OtherTable` | dal/migrator.go:187-207 | A table the registry does not produce is untouched, or dropped as an orphan when that is allowed |
| `Convergence.SafeWithoutDestructive` | dal/migrator.go:219-236 | A successful Write without --allow-destructive removes no live table and no live column, whatever the names |
| `Convergence.UnownedTableKept` | dal/migrator.go:187-207 | A live table that lacks id or deleted is never dropped, whatever is allowed |
| `SelectSql.PostgresWhere` | dal/dialect/postgres/dialect.go:130-163 | The numbered placeholders go one for one with the arguments, and the clause denotes: not deleted unless included, every filter equal, id among IDs when there are any; a NULL filter matches nothing |
| `SelectSql.SqliteWhere` | dal/dialect/sqlite/dialect.go:125-155 | The positional placeholders likewise; both dialects denote the same predicate |
| `SelectSql.AddCondition` | dal/dialect/postgres/dialect.go:130-158 | A condition rendered with the next placeholders adds itself to the meaning and changes nothing before it |
| `Query.ResolveFilters` | dal/dialect/sqlite/db.go:367-373 | Filters under their column names, for any map order |
| `Query.NameReaches` | dal/dialect/sqlite/db.go:367-373 | A Go name or a column name reaches the column of the first field that has it; other names stay |
| `Query.SearchableColumns` | dal/dialect/sqlite/db.go:415-420 | The columns a search looks at: those of searchable fields that are no child tables |
| `Query.Database.ResolveSearchFilter` | dal/dialect/sqlite/db.go:407-448 | Whether a q filter was consumed, and the Select that is left with the ids found |
| `Query.Database.RunSelect` | dal/dialect/sqlite/db.go:117-128 | The rows returned are exactly those of the table that the Select asks for, in order |
| `Query.Database.QueryDoc` | dal/dialect/sqlite/db.go:93-129 | The rows of the document's table that answer the query, in order; none when a search found nothing, although an empty id list would mean no restriction |
| `Query.Database.Query` | dal/dialect/postgres/db.go:68-98 | NotFound exactly for a document type with no table, on both types alike; otherwise the reply to the query, or a failed search or statement |
| `Query.ReplyMember` | dal/dialect/sqlite/db.go:93-129 | Which rows a reply holds |
| `Query.SearchedRows` | dal/dialect/sqlite/db.go:407-448 | With a search text a reply holds exactly the rows that meet the other filters and whose id was found, none when nothing was found |
| `Query.BlankSearch` | dal/dialect/sqlite/db.go:421-423 | With a blank text: the rows of the ids the Select came with that meet the other filters, none when it came with none |
| `Query.TwinsAgree` | dal/dialect/postgres/db.go:415-453 | The two database types restrict a search alike, for every search result, exactly when there are searchable fields, the text is blank, or the Select has no id list |
| `Query.KeptByOne` | dal/dialect/sqlite/db.go:98-107 | What SQLite returns and PostgreSQL does not: on a search without searchable fields the rows of the Select's ids, on a child table those not marked as live, unless they were asked for; PostgreSQL returns nothing that SQLite does not |
| `Query.TwinReplies` | dal/dialect/sqlite/db.go:93-129 | The two database types reply alike to a query on the same contents exactly when the table has no such row |
| `Query.ColumnNamedQ` | dal/dialect/sqlite/db.go:407-412 | A filter on a column named q is taken for a search: the rows answered are those that meet the other filters and whose id was found, whatever they have in the column |
| `Audit.DiffMaps` | audit/audit.go:153-179 | Exactly the fields that print differently, or that only the old row has, with old and new value |
| `Audit.PatchRebuilds` | audit/audit.go:153-189 | Applying a diff to any row that prints like the old one gives one that prints like the new one |
| `DocumentEngine.NormalizeToColumns` | document/engine.go:649-664 | The data under column names, for any map order |
| `DocumentEngine.CheckUnique` | document/engine.go:554-590 | Refuses exactly when another live record has the value of a unique field that is set and not zero, or when a lookup fails |
| `DocumentEngine.Engine.Create` | document/engine.go:73-164 | Refused without effect, or exactly the specified step: row inserted, hooks, entry and commit together or not at all |
| `DocumentEngine.Engine.Update` | document/engine.go:208-317 | Likewise for a record that can be found |
| `DocumentEngine.Engine.Delete` | document/engine.go:324-382 | Likewise; the record is marked deleted |
| `DocumentEngine.Engine.Finish` | audit/audit.go:81-86 | The audit write and the commit: on failure everything the transaction covers is put back |
| `DocumentRuns.AllOrNothing` | document/engine.go:108-163 | With a transactional log a failed call changes nothing and a successful one changes one record and adds one entry for it |
| `DocumentRuns.InMemoryLogDiverges` | audit/audit.go:81-86 | A log outside the transaction keeps the entry of a call whose commit fails, and that is its only divergence |
| `DocumentEffects.CreateStores` | document/engine.go:596-624 | A successful create stores, under the new id it returns, every column as given, the system columns as given or set, and nothing else; the record is live unless the data says otherwise; one entry |
| `DocumentEffects.CreateSucceeds` | document/engine.go:73-164 | When a create succeeds, condition by condition |
| `DocumentEffects.SecondIsRefused` | document/engine.go:554-590 | After it another create with the same value of a unique field is refused as not unique |
| `DocumentEffects.UpdateStores` | document/engine.go:208-317 | A successful update writes exactly the columns given, stamps the record, and changes no other; on PostgreSQL a written id moves it |
| `DocumentEffects.UpdateSucceeds` | document/engine.go:208-317 | When an update of a record that can be found succeeds |
| `DocumentEffects.PatchIsApplied` | document/engine.go:208-317 | With a patch merged as it is, the record afterwards is the patch over the record, with a new updated_at |
| `DocumentEffects.QuietHooksMerge` | document/engine.go:208-317 | Hooks that change nothing merge the patch into the record as it is |
| `DocumentEffects.DeleteStores` | document/engine.go:324-382 | A successful delete marks and stamps the record and changes nothing else; it can no longer be found |
| `DocumentEffects.DeleteSucceeds` | document/engine.go:324-382 | When a delete of a record that can be found succeeds |
| `DocumentEffects.CheckPasses` | document/engine.go:554-590 | The check passes exactly when no live record has the value of a unique field and no needed lookup fails |
| `DocumentEffects.NormalValue` | document/engine.go:649-664 | A value given under a name reaches its column when no other key goes there |
| `AuditReplay.EntryRecorded` | document/engine.go:140-151 | After a create or update the replay of a record gives its stored row, up to printed values, exactly when the map the after-hooks left prints like that row |
| `AuditReplay.IdDecides` | dal/dialect/sqlite/dialect.go:201-209 | SQLite never writes the id column: the audited row prints like the stored one exactly when the record kept its id |
| `AuditReplay.UpdateRecorded` | document/engine.go:208-317 | A successful update leaves the log a faithful record of the table exactly when the row it wrote carries the record's own id, on both dialects |
| `AuditReplay.StepFaithful` | document/engine.go:73-382 | With hooks after the write that change nothing, a call leaves the log a faithful record exactly when it wrote no update under another id and left no entry for a change that its failed commit undid |
| `AuditReplay.AlwaysFaithful` | document/engine.go:73-382 | With such hooks, and a log inside or outside the transaction: every state of a run is recorded exactly when every successful update wrote its record under its own id and no failed commit left the entry of a change |
| `AuditReplay.LogRebuildsRows` | document/engine.go:73-382 | In every such run: replaying a record's entries rebuilds its stored row, up to printed values, exactly when none of them is a deletion |
| `AuditReplay.PatchDecides` | document/engine.go:208-317 | With hooks that change nothing, a successful update stays recorded exactly when its patch carries no other id |
| `AuditReplay.CallersKeepIds` | document/engine.go:208-317 | Patches without another id, under hooks that put none in, and a log inside the transaction or commits that succeed, keep every run faithful |
| `AuditReplay.PatchedIdBreaksReplay` | api/rest/handlers.go:121-131 | Without any handler, a patch with another id succeeds and the log no longer rebuilds the record |
| `DocumentRuns.NormalHasNoNames` | document/engine.go:649-664 | Normalized data has no field names left as keys, so the check looks at the values that are stored |
| `DocumentRuns.CreateKeepsUnique` | document/engine.go:73-164 | A create keeps unique fields unique when hooks after the check leave them alone |
| `DocumentRuns.UpdateKeepsUnique` | document/engine.go:208-317 | So does an update, whose patch alone is checked |
| `DocumentRuns.UniqueAlways` | document/engine.go:554-590 | In every run of Create, Update and Delete no two live records share a non-zero value of a unique field |
| `Workflow.CheckRoles` | perm/engine.go:144-161 | Allowed exactly with no roles asked for, for a System Administrator, for *, or for a role held, without regard to case |
| `Workflow.AvailableTransitions` | workflow/engine.go:127-154 | Exactly the transitions that leave the state and whose roles the caller has, in order |
| `Workflow.AvailableMember` | workflow/engine.go:136-151 | Which transitions those are, by state, star and roles |
| `Workflow.Choose` | workflow/engine.go:186-197 | The first transition that leaves the state under the verb, if any |
| `Workflow.ChosenAvailable` | workflow/engine.go:186-208 | A call passes the role check exactly when the transition it takes is available to the caller |
| `Workflow.AvailableChosen` | workflow/engine.go:186-197 | An available transition is the one Execute takes exactly when none before it fires for the same verb |
| `Workflow.Engine.TransitionInTx` | workflow/engine.go:211-264 | Guard, update, event, handler, audit and commit: everything, or nothing but the entry that a log outside the transaction keeps when the commit fails |
| `Workflow.Engine.Execute` | workflow/engine.go:156-265 | A record that can be found takes the first transition that fires, if the caller may, and the log gets exactly that move; otherwise nothing happens |
| `Workflow.ExecuteMoves` | workflow/engine.go:156-265 | Execute succeeds exactly when nothing fails, the record can be found and the first transition that fires is open to the caller; the record is then in its new state, stamped now, otherwise as it was like every other record, with exactly one entry for the move; a failed call leaves every record as it was |
| `Workflow.ExecuteRefuses` | workflow/engine.go:168-208 | Which refusal a call gets before its transaction |
| `WorkflowRuns.CallMoves` | workflow/engine.go:156-265 | In every run a call whose transition the caller may take makes that one move when nothing fails, and changes no record otherwise |
| `WorkflowRuns.EntriesChain` | workflow/engine.go:156-265 | In every run beside other writers that leave workflow_state alone, with a log of either kind: from any moment on, a record's entries form a chain from its state then to its stored state now, exactly when no call since has lost its move |
| `WorkflowRuns.StepEffect` | audit/audit.go:81-86 | A call loses its move, leaving the entry and nothing else, exactly when it takes a transition to another state, only its commit fails, and the log is outside the transaction |
| `WorkflowRuns.NothingLost` | workflow/engine.go:211-264 | No move is lost with a log inside the transaction, or when no commit fails |
| `WorkflowRuns.NoEntriesBefore` | workflow/engine.go:156-265 | A record has no entries before it first appears |
| `WorkflowRuns.WholeChain` | workflow/engine.go:156-265 | So all of a record's entries form one chain from the state it appeared with to its stored state, exactly when none of its moves was lost |
| `WorkflowRuns.EntriesOffered` | workflow/engine.go:127-265 | Every entry, of either kind of log, is an edge of the definition that leaves its old state and was available to its caller there |
| `WorkflowRuns.FailedCommitBreaksChain` | site.go:76-135 | With the in-memory log a site starts with, one call whose commit fails on a move to another state leaves an entry that the stored state contradicts |
| `ToolNames.SnakeCase` | agent/tools/tools.go:643-655 | The builder loop writes the specified name |
| `ToolNames.SnakeInjective` | agent/tools/tools.go:643-655 | snake_case is injective on names of ASCII letters and digits with a capital first |
| `ToolNames.SnakeCollides` | agent/tools/tools.go:643-655 | Without either half of that rule two DocTypes share their tool names |
| `ToolNames.GenerateNames` | agent/tools/tools.go:191-301 | Exactly one name for each operation the document offers, all different |
| `ToolNames.OfferedNames` | agent/tools/tools.go:191-301 | Which names those are: get_ and list_ always, the others with the right, the searchable field or the workflow |
| `ToolNames.ToolNamesDistinct` | agent/tools/tools.go:191-301 | Two generated names are equal only for the same verb and DocType |
| `ToolNames.BuildDocTypeByTool` | agent/runtime/runtime.go:506-525 | The map finds every DocType by its snake_case name and loses none |
| `ToolNames.ToolNameRoundTrip` | agent/runtime/runtime.go:527-558 | A tool name gives back exactly the verb prefix and the DocType it was built from |
| `ToolNames.DiscoveryCollisions` | agent/tools/tools.go:591-629 | A generated name is a discovery tool's exactly for list_ with DocumentTypes or Relationships |
| `Ordering.SortedKeys` | dal/dialect/postgres/dialect.go:138-142 | sort.Strings on a map's keys: every key once, in byte order |
| `Ordering.SortedUnique` | dal/dialect/postgres/dialect.go:138-142 | A sorted list is determined by its members, so both dialects render one order |

## Left out

- User interfaces, command line, configuration, server and HTTP plumbing, SSE and
  WebSocket frames, JWT and password handling.
- The OpenAI provider, response translation and streaming of the Anthropic
  provider, StreamChatCompletion (the same loop as ChatCompletion) and token
  accounting.
- SQL text other than that of ALTER statements, drivers, Goose and Atlas: the
  other statements and conditions are data, a
  database is a map, and a migration file is applied in full or not at all. That
  PostgreSQL rejects some of these files (an added required column that is not
  text, with a default of an empty string) is the database's behaviour. The Atlas
  column types built alongside the comparison are never read and are not modelled.
- The type names a database reports are a fixed table for the types the dialects
  declare; a live column may report anything.
- ORDER BY, LIMIT, OFFSET and the column list of a Select; the conversion of times
  to strings on SQLite; the error for a column a table does not have.
- Full-text matching: the ids found are given. The uniqueness check's own query is
  taken to be an equality filter; on a unique column named q it would be a search
  (see `Query.ColumnNamedQ`).
- Concurrency beyond the approval round trip, such as overlapping requests to one
  model gateway: locks of the other components are
  taken as held for the whole of an operation.
- The registry's Compile past its first step, workflow registration, and the part
  of generateDocTemplates that builds payload schemas.
- Field validation by format, options and named validators; read-side permission
  filters; database-backed role permissions.
- Session lookup, expiry and identity; which tools are attached to a turn; the
  text of observations and summaries.
- Hard deletes, and documents of several types in one transaction: each operation
  touches the table of one type.
- LinkedList.List.Unlink: container/list's own length counter and its check that an
  element belongs to the list are not modelled; LruStore passes positions instead.
- LruStore.Store.Get: the entry is kept in the list node itself, where the source
  has one more pointer to a cacheEntry, and values are not copied byte by byte.
- Audit.DiffMaps: a set of changes is a map from field to old and new value, so the
  order of changes within an entry, which follows the map's own, is not kept.
- DocumentEngine.Engine.Create: an engine without an audit log, which writes no
  entry, is not modelled. An engine without a permission engine or an event bus is
  one whose permission or hooks return their row as it is.
- Workflow.Engine.TransitionInTx: a workflow engine without an audit log likewise.
- Query.TwinReplies: full-text matching is given, the same for both database types.
- AgentRuntime.Runtime.Execute: the rate limit and the token budget are one arbitrary
  refusal here; the limiter itself is AgentRateLimit.
- DdlText.AdditionSays: quoted names are written as they are; what %q does to a
  quote, a backslash or a control character in a name is not modelled.
- DdlText.TypeChangeSays: likewise.
- WsGateway.Gateway.Submit: a send on a full channel returns the verdict Blocks at the
  point where Go would wait; what the wait does is the protocol's blocked state.
- RateLimiter.Limiter.Admit: growth of a full buffer is by doubling; Go's own factor
  is not modelled.
