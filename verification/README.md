# Verified model of the gateway

This project models the parts of the AI gateway in which state, order and concurrency decide whether it is correct,
and proves what they keep. `dafny verify dfyconfig.toml` checks all of it.

| area | files |
|---|---|
| Reservation ledger, quota service, fallback loop, reconciler | `MemoryStore.dfy`, `Quota.dfy`, `Gateway.dfy`, `Reconciliation.dfy`, `FallbackRuns.dfy` |
| Streams and server-sent events | `Streams.dfy`, `StreamCall.dfy`, `ServerSentEvents.dfy`, `CutEvents.dfy` |
| Span redaction | `Redaction.dfy` |
| Policy chains | `Restriction.dfy`, `Grouping.dfy`, `Ordering.dfy`, `Policy.dfy`, `JsonPointer.dfy`, `McpPolicy.dfy`, `SecurityPolicy.dfy` |
| Approvals and tool invocation | `Approval.dfy`, `ApprovalService.dfy`, `ApprovalRace.dfy`, `Invocation.dfy` |
| Email outbox | `Outbox.dfy` |
| Routing | `Routing.dfy` |
| Tool schemas, prices, card numbers | `Discovery.dfy`, `Pricing.dfy`, `Luhn.dfy` |
| Shared | `Types.dfy`, `Sorting.dfy`, `Permutations.dfy` |

Objects that change in place are classes. Each of their methods is proved to have the effect of a function on values
(for example `MemoryStore.ReserveQuota` has the effect of `Ledgers.Reserve`), and what holds over whole runs is proved
about those functions. Runs are sequences of atomic steps in any order: every store operation, every service call of
the approval workflow, every statement on the outbox is one step; `ApprovalRace.dfy` splits decisions into two. Clocks, random identifiers, providers, tools, the
request counter, inspection and everything else from outside enter as arguments, so that each theorem holds whatever
they answer. What an operation does is also stated without these functions, field by field and in the constants of the
source: such predicates end in `InFull`, methods ensure them, and the lemmas of that name prove them of the functions.

## What the proofs turned up

Where a promise is not kept on every input, the code was modelled as it is, and the exact condition is proved.

* **Quotas.** A request is charged what the provider reports, or what was streamed, without a cap. A finalize is safe in
  every store it may meet exactly when the request is already metered or its charge is covered by its own pending
  reservation (`FinalizeSafeIff`). The reconciler works from a snapshot; if an attempt is released and retried in
  between, 60 tokens charged and 60 still reserved stand against a limit of 100 (`StaleReconcileExceedsQuota`).
  `QuotaSafety` therefore assumes two things of a run, and nothing else.
* **A limit of `u64::MAX`** is never enforced, because the saturated sum compared with it cannot exceed it
  (`UnlimitedNeverRejects`). All quota theorems are about smaller limits.
* **Counter keys.** `QuotaService::reserve` takes a key before it computes the expiry, and it and `release_counter`
  ignore an error of the counter's `release`. A call loses no key exactly when none was taken, or the expiry can be
  represented and the key is kept or comes back (`NoKeyLostIff`; for a whole call `NoKeyIsLostIff`). Over any sequence of calls
  the keys outstanding are those in the map exactly when each call met its condition (`KeysMatchIff`). A lifetime below
  the largest duration can still overflow the calendar, which panics after the key was taken.
* **A route to a provider that is not registered** leaves its reservation and counter key behind, and only such a route
  does (`NothingLeaksIff`). The startup checks exclude it (`StartedGatewayNeverLeaks`).
* **Allowlists.** An empty list admits everything, so intersecting two disjoint lists lifts the restriction. A resolved
  chain authorizes exactly what all of its policies authorize if and only if the non-empty lists share an element, or
  their fold is non-empty and somebody denies each model in it (`ExactIff`). If policies may be rearranged and repeated,
  what is authorized stays the same exactly when the lists are consistent or share only denied models
  (`ArrangementDoesNotMatterIff`).
* **The order of a chain** matters to its allowlist (`OrderMayMatter`: the lists [a], [b], [c] admit c, and [a], [c], [b]
  do not), except when all non-empty lists share an element, or their number is a multiple of some k such that fewer
  than k of them always share one and k of them never do (`OrderDoesNotMatterIff`). Of non-empty lists, two
  neighbours at the end may be swapped exactly if both or neither overlap what comes before them, and if neither, differ
  in denied items only (`NeighboursIff`).
* **The grouping of a chain**, which keeps its order, matters too (`GroupingMayMatter`: [a], [b], [c] admit c, but [a]
  followed by the resolved [b], [c] admits a). Three non-empty lists associate exactly if the middle one
  overlaps both neighbours, or neither while the outer two agree but for denied items (`ThreePoliciesIff`). In a chain of any length
  it never matters which neighbours are resolved first, in all of it or in a run of it, exactly when all non-empty lists
  but the last and all but the first share an element, or two disjoint lists take turns (`GroupingDoesNotMatterIff`).
  Denials, limits, explicit actions and risks never depend on it (`GroupedLimits`, `GroupedEntries`).
* **Argument restrictions.** The last list set for a pointer replaces all others. Whether a chain of any length admits
  exactly the arguments that all its policies admit is decided by finitely many documents, those that hold one listed
  value at its pointer and nothing else (`ChainNarrowsIff`). If no restricted pointer leads on from another, this comes
  to: every value of the last list for a pointer is in every list for it (`SeparateChainNarrowsIff`). Otherwise such a
  value need not let anything in (`DependentPointersMayKeep`), and what is listed for a text that is no JSON pointer
  never matters (`InvalidPointersDoNotMatter`).
* **A CRLF pair cut by a chunk boundary** is not normalised by the web client, which then misses the blank line or reads
  a line with a carriage return at its end. That need not lose anything. For streams whose carriage returns all belong to
  CRLF pairs, the payloads are those of the whole text exactly when no cut pair ends a line with data in a block that is
  delivered and no payload lies between the last blank line that is read and the last one that was sent
  (`PayloadsSurviveCutsIff`). Trailing white space does not matter to a JSON parser, and reading stops where a payload
  does not parse. So the caller's events are those of the whole text exactly when reading stops first at a payload that
  does not parse, or at a cut `[DONE]` line after which the next payload sent does not parse, or nowhere while nothing is
  missed (`EventsSurviveCutsIff`). `CutCrlfLosesEvent` is one family in which an event is lost.
* **Two decisions at once.** `decide` looks a request up and then writes. Under the repository contract of the tests,
  which writes unconditionally, a second worker's decision turns an approved request into a rejected one and lowers the
  gauge again (`DuelEnds`). The gauge falls behind by exactly the writes to requests that are no longer pending
  (`DriftIsStaleWrites`), and a write is one of those exactly if somebody else's write, or a sweep after the request's
  time, came in between (`StaleIff`). The guard in the statement of the Postgres store excludes them (`GaugeIsExactIff`).
* **Outbox leases.** `failed` does not ask whether the lease is still the worker's own. A worker that reports late cuts
  its successor's lease short, and a third worker may then claim the event, exactly if the late attempt was one of the
  first eight (`LateFailureBreaksExclusionIff`).
* **Stored results.** An invocation that needs no approval but carries an approval reference also reports its result, so
  the stored result of a claim is the last one reported under its key (`StoredIsLastReported`), which need not be the
  one of the call that claimed it (`StoredResultMayBeAnothers`; `SuchARun` is a run). If nobody claimed the approval it
  refers to under its key, such an invocation is billed and its result withheld (`BilledIffHandedOut`).
* **Redaction.** Splicing panics exactly when a maximal covered run begins or ends inside a character; ends that lie
  inside such a run do not matter (`RedactText`).
* **Prices.** A window that is never active can still be turned down as overlapping. A list with one price at a time is
  turned down exactly when some pair clashes and each that does has a window that is never active
  (`NeedlesslyRejectedIff`).

## Model

| member | source | states |
|---|---|---|
| Ledgers.ReserveKeepsLimits | stores/store-memory/src/lib.rs:117-165 | reserving keeps today's charge plus pending reservations of every limited owner within its limit |
| Ledgers.GrantedIff | stores/store-memory/src/lib.rs:117-165 | a reservation of a limited owner is granted iff it fits exactly in what the owner has left, so neither wrap-around nor saturation ever decides |
| Ledgers.ReleaseKeepsLimits | stores/store-memory/src/lib.rs:178-181 | releasing keeps every limit |
| Ledgers.FinalizeKeepsLimits | stores/store-memory/src/lib.rs:167-176 | finalizing keeps every limit if the request is metered already or its charge is covered by its own pending reservation |
| Ledgers.FinalizeSafeIff | stores/store-memory/src/lib.rs:167-176 | that condition is exact: finalizing is safe in all stores that fit the task's view iff it holds |
| Ledgers.FinalizeKeepsLimitsIff | stores/store-memory/src/lib.rs:167-176 | in any one store within its limits, finalizing keeps them iff the request is metered already, the owner is unlimited, or the charge fits once the reservation is given back |
| Ledgers.NewLimitIsKeptIff | stores/store-memory/src/lib.rs:39-46 | setting a tenant up anew keeps all limits iff what it was charged and holds fits the new one |
| Ledgers.LaterKeepsLimits | stores/store-memory/src/lib.rs:201-203 | the passage of time keeps every limit: afterwards what was metered since the last UTC midnight and what is pending are within each |
| Ledgers.EventChargesItsOwnerOnly | stores/store-memory/src/lib.rs:131-148 | the event of a reservation counts toward its own owner and no other |
| Ledgers.UnlimitedNeverRejects | stores/store-memory/src/lib.rs:154-160 | a limit of 2^64 - 1 never rejects |
| Ledgers.ReserveGrantsAsMetered | stores/store-memory/src/lib.rs:117-165 | the grant, written out: the sums over events of the 86400 seconds from midnight on and over pending reservations, in the fields of these |
| Ledgers.WithinLimitsInFull | stores/store-memory/src/lib.rs:117-165 | what it means that limits hold, written out with the same sums, for every owner, limit and midnight |
| Ledgers.ChargeSinceMidnight | stores/store-memory/src/lib.rs:131-155 | an owner is charged the totals of its events since midnight and of its pending reservations |
| MemoryStores.SumTokens | stores/store-memory/src/lib.rs:131-155 | summing in any order of the hash map yields the exact sum modulo 2^64 |
| MemoryStores.MemoryStore.FindKeyRecord | stores/store-memory/src/lib.rs:119-129 | finds the one key with this identifier, or none |
| MemoryStores.MemoryStore.ReserveQuota | stores/store-memory/src/lib.rs:117-165 | a limited owner is granted a reservation iff what was metered for it since the last UTC midnight, what it holds and what it asks for are together at most its limit; without a limit it is not found; the reservation is stored iff granted, and nothing else changes |
| MemoryStores.MemoryStore.FinalizeUsage | stores/store-memory/src/lib.rs:167-176 | drops the reservation and records the first event of a request only |
| MemoryStores.MemoryStore.ReleaseReservation | stores/store-memory/src/lib.rs:178-181 | drops the reservation and changes nothing else |
| MemoryStores.MemoryStore.ExpiredReservations | stores/store-memory/src/lib.rs:183-194 | lists exactly the expired reservations, each once |
| MemoryStores.MemoryStore.InsertTenant | stores/store-memory/src/lib.rs:39-46 | replaces the tenant, and keeps limits iff what it was charged and holds fits the new one |
| Quotas.QuotaService.Reserve | crates/gateway-quota/src/lib.rs:39-99 | what is reserved, kept and answered for each answer of counter and store; the keys outstanding are always those held and those lost, and exactly which key is lost, a failing release and an expiry past the calendar included |
| Quotas.QuotaService.ReleaseCounter | crates/gateway-quota/src/lib.rs:101-111 | gives up exactly the key kept for the reservation, which is lost iff the counter's release fails |
| Quotas.QuotaService.NoKeyLostIff | crates/gateway-quota/src/lib.rs:52-99 | a reservation loses no key iff none was taken, or the expiry can be represented and it was granted or the release succeeded |
| Quotas.HeldIffNoneLost | crates/gateway-quota/src/lib.rs:73-75 | the keys outstanding are exactly those in the map iff none was lost |
| Quotas.KeysMatchIff | crates/gateway-quota/src/lib.rs:39-111 | over any sequence of `reserve` and `release_counter` calls the keys outstanding are those in the map iff each call took no key, kept it or got it back, and lost none it gave up |
| Quotas.AuthenticatedIsAttributed | crates/gateway-quota/src/lib.rs:56-76 | a reservation is attributed to its owner's tenant and principal iff the principal is an authenticated one |
| Gateways.GatewayService.Record | crates/gateway-core/src/lib.rs:720-738 | meters once and gives up reservation and counter key, which is lost iff its release fails |
| Gateways.GatewayService.RecordOrRelease | crates/gateway-core/src/lib.rs:740-757 | releases when going on to the next route, meters otherwise |
| Gateways.GatewayService.TryRoute | crates/gateway-core/src/lib.rs:335-388 | one turn of the loop, whatever the counter answers: it restores ledger and keys held and goes on, or ends the call with exactly one outcome, metered as the provider reported; which key it loses |
| Gateways.GatewayService.Execute | crates/gateway-core/src/lib.rs:316-389 | the providers called are a prefix of the routes; all attempts but the last failed with a transient error and left nothing behind but the keys they lost; the last alone decides result, ledger and keys held: field by field, the event is the usage a provider reported, or the prompt bound after a failure, and the result is by cases of the reply |
| Gateways.GatewayService.EndedInFull | crates/gateway-core/src/lib.rs:316-389 | how a call ends, case by case: refused, not registered, answered, streamed or failed, with result, status, usage, tenant, principal, route and time of the event |
| Gateways.GatewayService.GrantedInFull | crates/gateway-core/src/lib.rs:335-337 | an attempt gets its reservation iff the counter gives a key, the expiry can be represented, and the request's two bounds fit what the key or tenant has left that day |
| Gateways.CompletedIsCharged | crates/gateway-core/src/lib.rs:355-387 | a call newly metered raises what its owner was charged that day by exactly the total of its event, and nobody else's charge |
| Gateways.NothingLeaksIff | crates/gateway-core/src/lib.rs:316-389 | after a call nothing is held iff the last provider is registered or nothing was granted; the request is metered iff its last reservation was granted |
| Gateways.NoKeyIsLostIff | crates/gateway-core/src/lib.rs:316-389 | a call loses no counter key iff for each attempt none was taken, it is still held, or the counter answers and the expiry can be represented |
| Reconciliation.StepKeepsInvariant | apps/gatewayd/src/lib.rs:1089-1135 | every step of requests, reconciler and clock keeps the invariant that ties held reservations to the ledger |
| Reconciliation.QuotaSafety | stores/store-memory/src/lib.rs:117-181 | in every interleaving of reserve, finalize, release, crash, snapshot, reconcile and day rollover, what was metered for an owner since the last UTC midnight plus what it holds stays within its limit, under the two premises above |
| Reconciliation.MeteredAtMostOnce | stores/store-memory/src/lib.rs:167-176 | in every run, whatever is reported, a request's usage event is written at most once and never changes |
| Reconciliation.FinalizeAgainAddsNothing | stores/store-memory/src/lib.rs:167-176 | a repeated finalize adds no charge to anybody |
| Reconciliation.ReconcileExpired | apps/gatewayd/src/lib.rs:1089-1135 | a tick that is not interrupted charges each expired reservation and leaves none, in any store; limits that held still hold if the reservations name their owners |
| Reconciliation.TickInFull | apps/gatewayd/src/lib.rs:1097-1132 | after a tick just the reservations remain whose time has not come; every other request is metered, and one metered newly is charged both bounds of its reservation, as an estimate, interrupted, now |
| Reconciliation.WorkingOffPending | apps/gatewayd/src/lib.rs:1097-1132 | charging reservations that are still pending keeps every limit |
| Reconciliation.WorkingOffRemoves | apps/gatewayd/src/lib.rs:1097-1132 | a tick removes the reservations it read and no others |
| Reconciliation.WorkingOffMeters | apps/gatewayd/src/lib.rs:1097-1132 | it keeps what was metered and meters every other expired request in full |
| Reconciliation.StaleReconcileExceedsQuota | apps/gatewayd/src/lib.rs:1089-1135 | a run with release and retry between snapshot and charge exceeds the quota |
| FallbackRuns.AttemptIsARun | crates/gateway-core/src/lib.rs:333-387 | an attempt is a run of the metering protocol to the ledger the loop leaves; one that falls through only moves the clock |
| FallbackRuns.CallIsARun | crates/gateway-core/src/lib.rs:316-389 | a whole call of the fallback loop that nobody interrupts is a run of the protocol, honest if what is metered at its end is at most what was reserved |
| FallbackRuns.FailuresAreModest | crates/gateway-core/src/lib.rs:366-379 | in `execute`, only usage that a provider reports can exceed what was reserved |
| FallbackRuns.CallKeepsInvariant | crates/gateway-core/src/lib.rs:316-389 | so such a call keeps every quota from whatever state an honest run has reached |
| FallbackRuns.AttemptAmongOthers | crates/gateway-core/src/lib.rs:333-387 | the same for one attempt with arbitrary steps of others before it and during it |
| FallbackRuns.CallAmongOthers | crates/gateway-core/src/lib.rs:316-389 | whatever other requests, reconciler and clock do in between, a call is a legal run; it leaves no reservation of its request iff it did not end at an unregistered provider, it is metered if its last reservation was granted and answered for, and it is honest if the others are and nothing is metered above its reservation |
| FallbackRuns.CallMetersOnce | crates/gateway-core/src/lib.rs:316-389 | a call among others takes exactly one metering step, that of its last attempt, if that was granted by a registered provider, and none otherwise |
| Redactions.RedactText | crates/gateway-security/src/redaction.rs:24-46 | for any evidence, the merged right-to-left splice is the per-position redaction; it replaces each maximal run of covered positions by one marker and keeps all else, and panics iff a run begins or ends before a continuation byte |
| Redactions.ResultInFull | crates/gateway-security/src/redaction.rs:24-46 | the result, run by run: runs are the positions of evidence with both ends set, the start before the end and the end within the text |
| Redactions.MarkerIsSpelledOut | crates/gateway-security/src/redaction.rs:43 | the marker is the text [REDACTED] |
| Redactions.BoundaryIff | crates/gateway-security/src/redaction.rs:42-44 | the boundaries at which a splice does not panic are exactly the places in UTF-8 text where some number of characters ends |
| Redactions.MergeSpans | crates/gateway-security/src/redaction.rs:31-40 | merged spans cover the same positions and no two of them overlap or touch |
| Redactions.SpliceAll | crates/gateway-security/src/redaction.rs:41-45 | splicing spans that lie apart from right to left yields the per-position redaction, or panics at an edge inside a character |
| Redactions.CleanSpansCutCleanly | crates/gateway-security/src/redaction.rs:24-46 | if all valid spans end on characters there is no panic |
| Redactions.CoverageDecides | crates/gateway-security/src/redaction.rs:24-46 | the result depends on the evidence only through the positions covered |
| Redactions.OrderDoesNotMatter | crates/gateway-security/src/redaction.rs:24-46 | the order of the evidence does not matter |
| Redactions.NothingCovered | crates/gateway-security/src/redaction.rs:24-46 | text that no valid span covers is unchanged |
| ServerSentEvents.ReadSse | apps/gateway-web/lib/gateway-api.ts:55-87 | delivers, of the payloads of all complete blocks of the normalised chunks, all up to the first that does not parse, at which it throws |
| ServerSentEvents.PayloadInFull | apps/gateway-web/lib/gateway-api.ts:75-78 | a line carries a payload iff it is `data:`, any of the 25 white-space characters, and then the payload, which does not start with one and is not `[DONE]` |
| ServerSentEvents.PayloadsListed | apps/gateway-web/lib/gateway-api.ts:75-79 | the payloads of a block are those its lines carry, in their order |
| ServerSentEvents.DrainBuffer | apps/gateway-web/lib/gateway-api.ts:71-81 | delivers the complete blocks of a buffer and keeps the incomplete rest |
| ServerSentEvents.SplitContinues | apps/gateway-web/lib/gateway-api.ts:71-81 | splitting at blank lines can go on from the rest of what was split before |
| ServerSentEvents.SplitThenJoin | apps/gateway-web/lib/gateway-api.ts:71-81 | blocks and rest joined again are the text |
| ServerSentEvents.JoinThenSplit | apps/gateway-web/lib/gateway-api.ts:71-81 | well-formed blocks and rest are what splitting their join yields |
| ServerSentEvents.ChunkingIsInvisibleIff | apps/gateway-web/lib/gateway-api.ts:70 | the text the reader sees is the normalised whole text iff no chunk boundary cuts a CRLF pair |
| ServerSentEvents.SameEventsHoweverCut | apps/gateway-web/lib/gateway-api.ts:67-82 | without a cut CRLF pair, and so without carriage returns, the events do not depend on the chunks |
| ServerSentEvents.CutCrlfLosesEvent | apps/gateway-web/lib/gateway-api.ts:70-71 | in a stream of one event, a cut of the last CRLF pair loses it |
| CutEvents.WholePayloadsAreDelivered | apps/gateway-web/lib/gateway-api.ts:71-82 | the payloads of a text are those of its lines up to the last blank one |
| CutEvents.PayloadsSurviveCutsIff | apps/gateway-web/lib/gateway-api.ts:67-82 | if all carriage returns belong to CRLF pairs, the payloads are those of the whole text iff no cut pair ends a line with data that is delivered and no payload is missed after the last blank line read |
| CutEvents.EventsSurviveCutsIff | apps/gateway-web/lib/gateway-api.ts:67-87 | under a parser that ignores white space at the end, events and throwing are those of the whole text iff reading stops first where a payload does not parse, or at a cut `[DONE]` before one that does not, or nowhere and no payload is missed |
| ServerSentEvents.EventsRoundTrip | apps/gateway-web/lib/gateway-api.ts:67-82 | events written as `data:` blocks are read back in order, however they are cut |
| Streams.ConsumeStream | crates/gateway-core/src/lib.rs:1015-1044 | what a client is sent, what is metered and with which status, for every upstream and every client that leaves early: status by status, item by item |
| Streams.ConsumeInspectedStream | crates/gateway-core/src/lib.rs:1079-1152 | the same for the consumer that holds everything back until the text was inspected; it stops reading with the delta beyond 16 MiB |
| Streams.PassedInFull | crates/gateway-core/src/lib.rs:1015-1044 | the pass-through consumer, status by status: what was read, what was sent, the last usage reported or else prompt bound and bytes of text as an estimate |
| Streams.ReadInFull | crates/gateway-core/src/lib.rs:1079-1152 | the inspecting consumer, case by case: too long, failed, and clean, rejected or other content |
| Streams.Emit | crates/gateway-core/src/lib.rs:1122-1141 | the inspected text is sent once, right before the first `Finished`, among the other events in order |
| Streams.SameStreamEitherWay | crates/gateway-core/src/lib.rs:1015-1168 | the inspected emission has the same text and the same other events, and no text after the first `Finished` |
| Streams.ConsumersAgree | crates/gateway-core/src/lib.rs:1015-1168 | over an upstream without error, with room and at most 16 MiB of unchanged text, both consumers succeed, meter the same usage and send the same stream |
| StreamCalls.Stream | crates/gateway-core/src/lib.rs:619-699 | a streaming call, to the end of its consumer, leaves the books of the fallback loop with the consumer's usage and status as the reply; what is answered and metered, case by case |
| StreamCalls.StreamEndedInFull | crates/gateway-core/src/lib.rs:619-699 | how a streaming call ends, written out: the result, and each field of the event with what the consumer ended with |
| StreamRuns.StreamLeavesNothing | crates/gateway-core/src/lib.rs:1045-1063 | after it no reservation and no counter key is held, and its request is metered with the consumer's usage and status |
| StreamRuns.StreamAmongOthers | crates/gateway-core/src/lib.rs:619-699 | among arbitrary steps of others it is a run with exactly one metering step of its request, with the consumer's usage if a stream was opened, and leaves no reservation behind |
| StreamRuns.StreamIsModestIff | crates/gateway-core/src/lib.rs:1040-1044 | a stream metered by its length stays within its reservation iff its text has at most as many bytes as tokens were reserved for it, the sums being below 2^64 |
| Allowlists.FoldLosesNothing | crates/gateway-policy/src/lib.rs:82-93 | what every list of a chain admits, the folded list admits |
| Allowlists.FoldIsExactIff | crates/gateway-policy/src/lib.rs:82-93 | it admits nothing else iff the non-empty lists share an element |
| Groupings.MeetAssociatesIff | crates/gateway-policy/src/lib.rs:82-93 | of three lists it does not matter which two are intersected first iff one is empty, or the middle one overlaps both others, or neither and these are equal |
| Groupings.SteadyIff | crates/gateway-policy/src/lib.rs:82-93 | of any number of lists it never matters which neighbours are folded first, in all of them or a run, iff all full ones but the last and all but the first share an element or two disjoint ones take turns |
| Orderings.OrderFreeIff | crates/gateway-policy/src/lib.rs:82-93 | the order of full lists never matters iff they share an element, or come in a multiple of k where k of them never share one and fewer always do |
| Strictness.Merge | crates/gateway-mcp/src/policy.rs:49-77 | the loop over a child's entries merges two maps key by key |
| Strictness.MergeNested | crates/gateway-security/src/policy.rs:50-77 | the nested loops merge two tables, and a row for which the child sets nothing is left alone |
| Policies.AuthorizesIffAllDo | crates/gateway-policy/src/lib.rs:30-77 | the resolved policy authorizes what all policies do, and nothing else if the chain is consistent |
| Policies.ExactIff | crates/gateway-policy/src/lib.rs:48-77 | resolving a chain is exact iff its allowlists are consistent, or their fold of models is non-empty and wholly denied |
| Policies.HierarchyAuthorizesIff | crates/gateway-policy/src/lib.rs:64-77 | the policy in effect authorizes just what every configured level does iff the levels' allowlists are consistent, or their fold of models is non-empty and wholly denied |
| Policies.AuthorizedInFull | crates/gateway-policy/src/lib.rs:30-77 | field by field: what a resolved chain authorizes no policy denies and no token limit forbids; what also is on every non-empty list is authorized; and if some model and operation are on every such list, nothing else is |
| Policies.HierarchyInFull | crates/gateway-policy/src/lib.rs:64-77 | the same of the policy in effect, for each of the five levels |
| Policies.ConsistentIff | crates/gateway-policy/src/lib.rs:82-93 | a chain is consistent iff one model and one operation are on every list that is not empty |
| Policies.ResolvedLimitIsMinimum | crates/gateway-policy/src/lib.rs:48-81 | each limit of the result is the least that is set |
| Policies.ResolvedDenials | crates/gateway-policy/src/lib.rs:48-62 | a model is denied iff some policy denies it |
| Policies.OrderDoesNotMatter | crates/gateway-policy/src/lib.rs:48-77 | neither order nor repetition of policies matters to the limits |
| Policies.ArrangementDoesNotMatterIff | crates/gateway-policy/src/lib.rs:48-77 | if policies may be rearranged and repeated, the same is authorized iff the allowlists are consistent or share only denied models |
| Policies.PartsDoNotMatterIff | crates/gateway-policy/src/lib.rs:48-77 | that rearranged and repeated policies are resolved in two parts adds nothing to that condition |
| Policies.OrderDoesNotMatterIff | crates/gateway-policy/src/lib.rs:64-77 | every order of the chain's policies resolves to the same allowlists iff those of models and those of operations balance: all share an element, or their number is a multiple of k, k of them never share one and fewer always do |
| Policies.OrderMayMatter | crates/gateway-policy/src/lib.rs:48-77 | three allowlists that admit a model in one order and not in another |
| Policies.NeighboursIff | crates/gateway-policy/src/lib.rs:48-77 | two neighbours at the end of a chain may be swapped iff their lists of models associate around those before them, and those of operations do or no model is allowed |
| Policies.GroupingDoesNotMatter | crates/gateway-policy/src/lib.rs:48-77 | for consistent chains, resolving two parts first yields the same decisions |
| Policies.GroupingDoesNotMatterIff | crates/gateway-policy/src/lib.rs:64-77 | whatever neighbours are resolved first, in the chain or a run of it, the allowlists are the same iff those of models and those of operations are steady |
| Policies.GroupedDecisions | crates/gateway-policy/src/lib.rs:30-62 | and then the same is authorized |
| Policies.ThreePoliciesIff | crates/gateway-policy/src/lib.rs:48-77 | of three policies it does not matter which two are resolved first iff their models associate, and their operations do or no model is allowed |
| Policies.GroupingMayMatter | crates/gateway-policy/src/lib.rs:48-77 | three allowlists in one order that admit one model or another as they are grouped |
| Policies.GroupedLimits | crates/gateway-policy/src/lib.rs:48-81 | each limit is that of the chain, however its policies are grouped |
| Policies.LimitsOfParts | crates/gateway-policy/src/lib.rs:48-81 | and if the chain is resolved in two parts of any length |
| McpPolicies.RestrictWith | crates/gateway-mcp/src/policy.rs:48-118 | the loops compute the key-by-key restriction |
| McpPolicies.ServerIffAllAdmit | crates/gateway-mcp/src/policy.rs:78-112 | a server is admitted if every policy admits it, and only then if the non-empty lists share a server |
| McpPolicies.ToolIffAllAdmit | crates/gateway-mcp/src/policy.rs:78-112 | the same for tools |
| McpPolicies.AuthorizedInFull | crates/gateway-mcp/src/policy.rs:78-147 | field by field: which error or success a resolved chain answers, from the lists, denials and argument restrictions of its policies |
| McpPolicies.ResolvedAction | crates/gateway-mcp/src/policy.rs:49-59 | the action on a tool is the strictest anybody sets |
| McpPolicies.ResolvedRisk | crates/gateway-mcp/src/policy.rs:67-77 | the risk of a tool is the highest anybody sets |
| McpPolicies.ActionInFull | crates/gateway-mcp/src/policy.rs:149-162 | the action under a chain: the strictest anybody sets for the tool, in the order Allow, Warn, Redact, RequireApproval, Block; else by risk, with the strictest default for mutating tools |
| McpPolicies.RiskInFull | crates/gateway-mcp/src/policy.rs:67-77 | the override is the highest anybody sets, in the order ReadOnly, Mutating, Unknown, Destructive, Privileged |
| McpPolicies.ResolvedLimit | crates/gateway-mcp/src/policy.rs:78-118 | each limit is the least that is set |
| McpPolicies.ActionIsStrictest | crates/gateway-mcp/src/policy.rs:149-163 | an action somebody sets is never weakened by defaults or by others |
| McpPolicies.OrderDoesNotMatter | crates/gateway-mcp/src/policy.rs:165-171 | explicit actions, risks and limits do not depend on the order of the chain |
| McpPolicies.ArrangementDoesNotMatterIff | crates/gateway-mcp/src/policy.rs:78-112 | if policies may be rearranged and repeated, the same servers, or tools, are admitted iff the non-empty lists share one |
| McpPolicies.PartsDoNotMatterIff | crates/gateway-mcp/src/policy.rs:78-112 | that they are resolved in two parts adds nothing to that condition |
| McpPolicies.OrderDoesNotMatterIff | crates/gateway-mcp/src/policy.rs:165-171 | every order resolves to the same allowlist of servers, or tools, iff the lists balance |
| McpPolicies.NeighboursIff | crates/gateway-mcp/src/policy.rs:165-171 | two neighbours at the end of a chain may be swapped iff they associate around what comes before them |
| McpPolicies.GroupingDoesNotMatterIff | crates/gateway-mcp/src/policy.rs:165-171 | whatever neighbours are resolved first, the allowlist is the same iff the lists are steady |
| McpPolicies.ThreePoliciesIff | crates/gateway-mcp/src/policy.rs:78-112 | of three policies it does not matter which two are resolved first iff they associate |
| McpPolicies.GroupedEntries | crates/gateway-mcp/src/policy.rs:48-118 | explicit actions, risks and limits are those of the chain, however its policies are grouped |
| McpPolicies.EntriesOfParts | crates/gateway-mcp/src/policy.rs:48-118 | and if it is resolved in two parts of any length |
| JsonPointers.NarrowsIff | crates/gateway-mcp/src/policy.rs:137-146 | what fits one set of restrictions fits another with fewer pointers iff this is so of the documents that hold one listed value alone |
| JsonPointers.PointersRoundTrip | crates/gateway-mcp/src/policy.rs:137-146 | a pointer written for any tokens, with ~ and / escaped, is read as these tokens |
| JsonPointers.LookupIff | crates/gateway-mcp/src/policy.rs:137-146 | looking a pointer up finds what its tokens lead to, by member names and decimal indices, and nothing else |
| McpPolicies.ArgumentsNarrowIff | crates/gateway-mcp/src/policy.rs:60-66 | in one step, a child keeps its parent's restrictions on all JSON arguments iff it does on the documents that hold one listed value alone |
| McpPolicies.NoArgumentsAreLost | crates/gateway-mcp/src/policy.rs:60-66 | arguments that every policy of a chain admits are admitted |
| McpPolicies.ChainNarrowsIff | crates/gateway-mcp/src/policy.rs:60-66 | a chain of any length admits exactly the JSON arguments all its policies admit iff no document that holds one value of a last list alone slips through |
| McpPolicies.SeparateChainNarrowsIff | crates/gateway-mcp/src/policy.rs:60-66 | if no restricted pointer leads on from another, iff every value of the last list set is in every list set |
| McpPolicies.LooseningBreaks | crates/gateway-mcp/src/policy.rs:60-66 | at a pointer that is separate from the others, a value of the last list that is not in all lists slips through |
| McpPolicies.TightListsKeep | crates/gateway-mcp/src/policy.rs:60-66 | at whatever pointers, if every value listed last is in all lists, all policies are kept |
| McpPolicies.InvalidPointersDoNotMatter | crates/gateway-mcp/src/policy.rs:137-146 | what is listed for a text that is no pointer changes nothing |
| McpPolicies.DependentPointersMayKeep | crates/gateway-mcp/src/policy.rs:137-146 | two lists at dependent pointers that loosen and yet let nothing in |
| SecurityPolicies.RestrictWith | crates/gateway-security/src/policy.rs:50-77 | the updates of the cloned policy compute the field-by-field restriction |
| SecurityPolicies.ResolvedAction | crates/gateway-security/src/policy.rs:50-88 | the action for a category and severity is the strictest anybody sets |
| SecurityPolicies.ResolvedFlag | crates/gateway-security/src/policy.rs:50-88 | a flag is strict iff some policy takes the strict side |
| SecurityPolicies.ResolvedCap | crates/gateway-security/src/policy.rs:50-88 | the size cap is the smallest |
| SecurityPolicies.ActionInFull | crates/gateway-security/src/policy.rs:37-88 | the action is the strictest anybody sets for the category and severity, and the recommended one if nobody does |
| SecurityPolicies.FlagsInFull | crates/gateway-security/src/policy.rs:50-88 | each inspection is made iff anybody wants it, failing open takes everybody, and the cap is the smallest |
| SecurityPolicies.ChainsOnlyTighten | crates/gateway-security/src/policy.rs:79-88 | no policy of a chain is weakened by the others |
| SecurityPolicies.OrderDoesNotMatter | crates/gateway-security/src/policy.rs:79-88 | the order of a chain does not matter |
| Approvals.GaugeCountsPending | crates/gateway-approval/src/service.rs:57-181 | in every run the gauge is the number of pending requests |
| Approvals.FinalStatesAreFinal | crates/gateway-approval/src/service.rs:91-181 | approved, rejected and expired requests never change, requests keep all but their status, and a claim is never given away |
| Approvals.EveryStatusIsExplained | crates/gateway-approval/src/service.rs:91-116 | in every run an approved or rejected request was decided so by its own tenant, and an expired one was looked at after its time |
| Approvals.ClaimedIff | crates/gateway-approval/src/service.rs:118-148 | exactly which retry may run the tool |
| Approvals.DecideInFull | crates/gateway-approval/src/service.rs:91-116 | requests, gauge and answer after a decision, case by case |
| Approvals.RetryInFull | crates/gateway-approval/src/service.rs:118-148 | requests, claims and answer after a retry, case by case |
| Approvals.UsableIff | crates/gateway-approval/src/service.rs:125-127 | a key is usable iff it is at most 255 bytes long and not all white space |
| Approvals.ToolRunsAtMostOnce | crates/gateway-approval/src/service.rs:118-288 | in every run an approval lets the tool run at most once, and only if it was granted |
| Approvals.RetriesAfterTheFirst | crates/gateway-approval/src/service.rs:252-288 | after the first claim no retry runs the tool: the same key and hash get the result last reported or indeterminate, others an error |
| Approvals.StoredIsLastReported | crates/gateway-approval/src/service.rs:275-288 | the stored result of a claim is the last one reported under its key |
| ApprovalServices.Repository.ExpireApprovals | crates/gateway-approval/src/service.rs:240-251 | expires every due request, and counts them exactly |
| ApprovalServices.Repository.ClaimExecution | crates/gateway-approval/src/service.rs:252-274 | the first claim wins; later ones are answered from what is stored |
| ApprovalServices.Repository.CompleteExecution | crates/gateway-approval/src/service.rs:275-288 | stores the result for the claim with this key |
| ApprovalServices.ApprovalService.CreateRequest | crates/gateway-approval/src/service.rs:27-60 | a new pending request with its expiry, counted in the gauge, unless the lifetime does not convert or the expiry is past the calendar |
| ApprovalServices.ApprovalService.GetRequest | crates/gateway-approval/src/service.rs:62-77 | expires first, then answers for the tenant only: request by request what the sweep does, and the answer by cases |
| ApprovalServices.ApprovalService.DecideRequest | crates/gateway-approval/src/service.rs:91-116 | a pending request of the tenant that is not due is approved or rejected as asked, and no other; each status has its error |
| ApprovalRaces.DriftIsStaleWrites | crates/gateway-approval/src/service.rs:91-116 | with looking up and writing as two steps, the gauge falls behind by exactly the writes to requests that are no longer pending, in every interleaving |
| ApprovalRaces.GaugeIsExactIff | crates/gateway-approval/src/service.rs:91-116 | it stays exact iff there are none, as with a repository that guards its writes |
| ApprovalRaces.StaleIff | crates/gateway-approval/src/service.rs:98-107 | an unguarded write is one of those iff somebody else's write, or a sweep after the request's time, came between it and the look |
| ApprovalRaces.FinalChangesIff | crates/gateway-approval/src/service.rs:231-239 | a final state changes iff an unguarded write says otherwise |
| ApprovalRaces.DuelEnds | crates/gateway-approval/src/service.rs:91-116 | two decisions of which both look before either writes: approved and then rejected with the gauge off without the guard, approved and exact with it |
| ApprovalRaces.AtOnceIsDecide | crates/gateway-approval/src/service.rs:91-116 | a worker that writes at once decides as the single step does |
| ApprovalServices.ApprovalService.RetryAuthorized | crates/gateway-approval/src/service.rs:118-148 | what a retry is told for each key, tenant, principal, hash, status and claim; only the first on an approved request claims it |
| ApprovalServices.ApprovalService.CompleteCall | crates/gateway-approval/src/service.rs:150-159 | stores the result iff the claim has this key, and changes nothing else |
| Invocations.McpInvocationService.AskApproval | crates/gateway-mcp/src/invocation.rs:144-196 | lets through exactly the claiming retry; completed claims are answered from the store, indeterminate ones are a transport error |
| Invocations.McpInvocationService.Invoke | crates/gateway-mcp/src/invocation.rs:62-353 | the tool is called iff the invocation is cleared and within the quota; what is answered, recorded and stored on every path: a result that is blocked is withheld and billed nothing, a redacted one is what rewriting decodes to; a quota reservation stays open iff the tool was called and the release failed |
| Invocations.InvocationInFull | crates/gateway-mcp/src/invocation.rs:62-353 | the whole invocation in the fields of policy, inspections, approval and reply: whether the tool is called, what is answered, recorded and stored |
| Invocations.MayCallIff | crates/gateway-mcp/src/invocation.rs:62-215 | exactly when the tool is called, in those fields |
| Invocations.StepBeforeInFull | crates/gateway-mcp/src/invocation.rs:144-196 | what becomes of the approvals before the tool is called: a new request is filed, the one referred to is retried, or nothing changes |
| Invocations.DeliveredInFull | crates/gateway-mcp/src/invocation.rs:242-300 | what is made of a reply under each action of inspection |
| Invocations.RecordedInFull | crates/gateway-mcp/src/invocation.rs:242-300 | what is recorded of it |
| Invocations.HandedOutIff | crates/gateway-mcp/src/invocation.rs:144-353 | under an approval a result is handed out iff it is fresh, from the claiming retry, and delivered, metered and stored, or is the stored one of a replay |
| Invocations.OneCallPerApproval | crates/gateway-mcp/src/invocation.rs:142-210 | however invocations and approval steps interleave, at most one tool call is made on an approval, and only once granted |
| Invocations.BilledIffHandedOut | crates/gateway-mcp/src/invocation.rs:242-353 | of the tool calls made, those handed out are the ones billed, except that the result of an invocation that names an approval not its own is billed and withheld |
| Invocations.BilledAsDelivered | crates/gateway-mcp/src/invocation.rs:275-300 | in every session a request is billed one invocation per fresh result that passed the checks and was metered, and at most one per tool call made for it |
| Invocations.BilledOncePerApproval | crates/gateway-mcp/src/invocation.rs:142-300 | however invocations and approval steps interleave, an approval is billed at most one invocation |
| Invocations.RepeatedInvocationGetsSameResult | crates/gateway-mcp/src/invocation.rs:145-160 | a repeated invocation gets the result of the first without calling the tool, unless another call reported under its key |
| Invocations.StoredResultMayBeAnothers | crates/gateway-mcp/src/invocation.rs:334-350 | what is stored for a claim, and handed to the claiming invocation when it is repeated, may be the result of an invocation that needed no approval |
| Invocations.SuchARun | crates/gateway-mcp/src/invocation.rs:334-350 | a concrete run from the start in which it is |
| Outbox.AuthEmailQueue.Claim | apps/gatewayd/src/lib.rs:145-158 | leases for five minutes the first undelivered row that is due, not locked, and tried fewer than ten times, or finds none |
| Outbox.AuthEmailQueue.ReportDelivered | apps/gatewayd/src/lib.rs:192-204 | marks the row delivered now and empties nonce and ciphertext; its other fields and all other rows stay |
| Outbox.AuthEmailQueue.ReportFailed | apps/gatewayd/src/lib.rs:206-220 | the row is due again after 2^n seconds for attempt n, 1024 from the tenth on; its other fields and all other rows stay |
| Outbox.AtMostTenAttempts | apps/gatewayd/src/lib.rs:145-158 | in every run each claim is counted and the count never passes ten |
| Outbox.DeliveredForGood | apps/gatewayd/src/lib.rs:145-220 | a delivered event is never claimed again and its ciphertext stays empty |
| Outbox.ReportedIsNeverSentAgain | apps/gatewayd/src/lib.rs:145-220 | in every run from an empty table, once a worker has reported an event delivered it is never claimed again, and no token is left of it |
| Outbox.StepsInFull | apps/gatewayd/src/lib.rs:145-220 | each step of a run, field by field: rows, leases, backoff, and who holds what until when |
| Outbox.NoTokenOutlivesDelivery | apps/gatewayd/src/lib.rs:192-204 | in every run no delivered row keeps a token |
| Outbox.NoTwoHolders | apps/gatewayd/src/lib.rs:145-220 | as long as each holder reports within its lease, no two workers hold one event |
| Outbox.ReclaimableIff | apps/gatewayd/src/lib.rs:145-158 | a held event can be claimed by another worker iff its lease has ended and it has attempts left |
| Outbox.BackoffIsBounded | apps/gatewayd/src/lib.rs:206-220 | the backoff is 2^attempt and at most 1024 seconds |
| Outbox.BackoffIsRespected | apps/gatewayd/src/lib.rs:145-220 | after a failure the event is not claimed before its backoff has passed |
| Outbox.LateFailureBreaksExclusion | apps/gatewayd/src/lib.rs:206-220 | a late failure report on one of the first eight attempts lets two workers hold one event within a lease |
| Outbox.LateFailureBreaksExclusionIff | apps/gatewayd/src/lib.rs:206-220 | after a takeover and a late failure report the event can be claimed within the successor's lease iff the late attempt was one of the first eight |
| Routing.RoutesAreMostSpecific | crates/gateway-routing/src/lib.rs:33-93 | a model is routed to the enabled targets of the most specific scope that offers it, sorted by priority |
| Routing.RoutesInFull | crates/gateway-routing/src/lib.rs:33-93 | target by target: the routes are those of all enabled targets of the project, or else the tenant, or else everybody, each once, by ascending priority and then in configured order; without any the model is unknown |
| Routing.TiesKeepInputOrder | crates/gateway-routing/src/lib.rs:34-40 | the plan is sorted by priority, a permutation of its input, and stable |
| Routing.ListedIffRoutedAndAdmitted | crates/gateway-core/src/lib.rs:282-313 | aliases are listed in order, each once; one is listed iff it is routed for the principal and passes the check on model scopes every request starts with |
| Routing.ListedInFull | crates/gateway-core/src/lib.rs:282-313 | an alias is listed iff some enabled target serves it for the principal, and the principal has no `model:` scope or this one |
| Routing.LexicographicIff | crates/gateway-core/src/lib.rs:282-313 | the order of the list is the lexicographic one |
| Routing.ConfiguredIff | apps/gatewayd/src/lib.rs:973-986 | a gateway starts iff some target is enabled and all enabled ones have a registered provider |
| Routing.RoutedProvidersAreRegistered | apps/gatewayd/src/lib.rs:973-986 | a gateway that started routes only to registered providers, and to at least one |
| Routing.StartedGatewayNeverLeaks | apps/gatewayd/src/lib.rs:978-986 | a call of a started gateway leaves no reservation of its request and no held counter key behind |
| Discovery.ValidateValue | crates/gateway-mcp/src/discovery.rs:63-127 | succeeds iff no path is too long, no string too long, no object breaks a rule and not too many members are counted; errors name a rule that is broken |
| Discovery.ExplainedInFull | crates/gateway-mcp/src/discovery.rs:63-127 | the measures mean what they should: depth is the length of the longest path to a value within, and strings and objects are those at all paths |
| Discovery.MembersAreCounted | crates/gateway-mcp/src/discovery.rs:82-86 | members are counted once for each object, at any depth |
| Discovery.CheckMembers | crates/gateway-mcp/src/discovery.rs:87-119 | exactly which `type`, `properties`, `required` and `$ref` members are accepted |
| Discovery.ValidateChildren | crates/gateway-mcp/src/discovery.rs:76-81 | the threaded counter and early exits compute the joint measures of all children |
| Discovery.MemberOrderDoesNotMatter | crates/gateway-mcp/src/discovery.rs:63-127 | no measure that validation looks at depends on the order of members, at any depth |
| Discovery.ValidateTools | crates/gateway-mcp/src/discovery.rs:23-61 | a list is accepted iff it has at most 10000 tools and each keeps all rules; the first tool that breaks one decides the error |
| Pricing.ValidateNoOverlap | crates/gateway-pricing/src/lib.rs:42-59 | accepted lists have one price per model at every instant; with windows that are ever active, exactly those are accepted |
| Pricing.ClashIffShared | crates/gateway-pricing/src/lib.rs:23-25 | windows that are ever active clash iff they share an instant |
| Pricing.NeedlessRejectionIff | crates/gateway-pricing/src/lib.rs:42-59 | a clash that no instant shows involves a window that is never active, and the reverse |
| Pricing.NeedlesslyRejectedIff | crates/gateway-pricing/src/lib.rs:42-59 | a list with one price at a time is rejected iff some pair clashes and each that does has a window that is never active |
| Pricing.EmptyWindowIsRejected | crates/gateway-pricing/src/lib.rs:42-59 | a family of lists that are rejected needlessly |
| Luhns.SingleChangeIsNoticed | security/security-sensitive-data/src/lib.rs:115-140 | in digit sequences of any length, a changed digit goes unnoticed iff it is the same |
| Luhns.SwapIsNoticed | security/security-sensitive-data/src/lib.rs:115-140 | two neighbours swapped go unnoticed iff they are equal or 0 and 9 |
| Luhns.CheckDigitIsUnique | security/security-sensitive-data/src/lib.rs:115-140 | every number has exactly one check digit |
| Luhns.LuhnIff | security/security-sensitive-data/src/lib.rs:115-140 | a text is accepted iff it has 13 to 19 digits whose sum, every second one from the last but one back doubled and its digits added, is a multiple of ten |
| Luhns.AnyWrongDigitIsRejected | security/security-sensitive-data/src/lib.rs:115-140 | an accepted text with one digit replaced is accepted iff the digit is the same |
| Luhns.SwappedNeighboursAreRejected | security/security-sensitive-data/src/lib.rs:115-140 | the same for two neighbouring digits swapped, whatever separators stand between them |

## Left out

- Gateways.GatewayService.Execute: assumes a store that answers; `execute_inference` and `embed` run the same loop and are not repeated.
- FallbackRuns.CallIsARun: a call takes its steps without interruption there; `FallbackRuns.CallAmongOthers` has no such assumption.
- Reconciliation.QuotaSafety: tenants and keys are fixed during a run, and a limit of 2^64 - 1 counts as none.
- Reconciliation.ReconcileExpired: takes one clock reading for a whole tick.
- Streams.ConsumeStream: text is a sequence whose length counts its bytes.
- StreamCalls.Stream: the consumer's task runs to its end within the call, and the runs of `FallbackRuns` interleave it with others; a usage event that cannot be stored, after which the client is sent an error, is not modelled.
- Redactions.RedactText: a panic is the result `None`; `redact_json` and `fully_redact_strings` map it over a JSON value and are not modelled.
- ServerSentEvents.ReadSse: text decoding and `JSON.parse` are parameters; cancelling the reader is not modelled.
- McpPolicies.ChainNarrowsIff: a JSON number is a text, and equal if its text is.
- CutEvents.PayloadsSurviveCutsIff: all carriage returns belong to CRLF pairs; streams with others are covered by `ServerSentEvents.ChunkingIsInvisibleIff` only.
- Policies.OrderDoesNotMatterIff: about the resolved allowlists; that different ones can still admit the same because of denials is stated for two neighbours, three policies and rearranged chains.
- ApprovalRaces.DriftIsStaleWrites: a look is one step, as are retries; the decision log and its reasons are not modelled.
- Invocations.RepeatedInvocationGetsSameResult: assumes that a result that is stored reads back as itself.
- Invocations.McpInvocationService.Invoke: the MCP quota trait and the tool registry are arguments; audit events and metrics are not modelled.
- Outbox.NoTwoHolders: assumes that every holder reports within its five-minute lease; the check that recipients are lower case is not modelled.
- Routing.StartedGatewayNeverLeaks: the setup route that is added when no target is configured is not modelled.
- Discovery.ValidateTools: the length of the encoded schema is an argument, and its hash is not modelled.
- Costs, pricing status, latencies, event ids, and project and user ids of usage events: carried along unchanged by the source.
- `fail_execution`, which the repository contract leaves without effect.
- HTTP handlers, provider adapters, transports, the Postgres and Redis stores, cryptography, regex and entropy inspection, configuration, metrics other than the gauge of pending approvals.
