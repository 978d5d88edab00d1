# Padrino: admission, broadcast, privacy and rating logic, modelled and proved

Padrino runs games of social deduction between language-model agents and, in one lane, humans.
This project models the logic around the game engine that has to stay right under concurrency,
retries and hostile interleavings, and proves what it promises. `dafny verify dfyconfig.toml`
checks everything.

## The modules

- `Slots`, `SlotBudget`, `SlotClaims`, `SlotOwnership`, `SlotStore`, `BudgetClaims`: the finite-slot reservation
  protocol. Any number of sessions read a slot table, pick the lowest free index and insert under
  a unique constraint, while others release and delete rows. `Slots.Run` is the step system;
  `SlotStore.Store` is the table with the methods of the source, each tied to that step system.
- `HumanAdmission`, `BenchmarkAdmission`: the two admission sagas over several scopes, with
  hard-delete rollback and compensating release.
- `LiveTail`: the live stream over a growing log, against every schedule of appends, game
  completion and polls. `Spectator` is the projection it emits.
- `RateLimit`: the two fixed-window stores and the simulation between them.
- `Privacy`, `Spectator`, `PublishGate`, `Observations`: the recursive payload guards, auditors,
  strippers and projections over nested values, and which events a seat is shown.
- `HashChain`: the event log, its three verifiers, and what a tip hash pins down.
- `Routing`: backoff per provider host and the order of primary, alternates and fallback.
- `Matchmaker`: the shuffle, the stable selection and the fairness of whole seasons.
- `RankRewind`, `Statistics`: ranking, the two ways of rewinding ratings, the Wilson interval and
  the percentile bootstrap over exact reals.
- `SpanMask`, `PhaseId`: whole-word masking, and phase ids with their three readers.

## Where the code and what is said about it differ

- `_claim_inference_slot` (src/padrino/economics/human_cost_governance.py:451-460) promises that
  live reservations plus implicit use never exceed the slot count. This holds in every run if and
  only if all claimers of a scope see charges of the same slot count
  (`SlotBudget.PromiseKeptIff`). What always holds is the cap on live rows
  (`Slots.CapHoldsInEveryRun`).
- `None` from a claim does not always mean that the budget is exhausted: all `cap + 1` rounds can be
  lost if and only if other sessions free more rows meanwhile than the slots implicitly used or live
  when the claim starts (`SlotClaims.RetriesSufficeIff`). A denial by the cap test itself is always
  true when it is returned (`SlotClaims.ClaimOutcome`).
- Hard-deleting a released row would break the cap (`SlotBudget.DeletingReleasedRowBreaksCap`);
  the rollbacks of the source only delete rows of their own call, never bound and so never
  released by a lobby (`HumanAdmission.AdmissionIsHumanLane`,
  `HumanAdmission.LaterRollbackIsHumanLane`).
- The database rate limiter's peek allows a key with limit 0 or less that has no row yet; the
  in-memory one refuses (`RateLimit.PeeksAgreeIff`, `RateLimit.StoresAgreeIff`). Batches that name a
  key twice can be answered differently (`RateLimit.BatchesAgreeIff`).
- A live tail opened without a position starts at 0 and compares strictly, so it carries the whole
  public log if and only if no public event has sequence 0 (`LiveTail.FreshTailCompleteIff`). One
  opened with a negative position carries all of it.
- Players are said not to be shown SYSTEM events (src/padrino/core/observations.py:9-15). The lists of
  eliminations, inspection results and night feedback go by event type and do not look at the
  visibility. An observation depends on visible events alone if and only if the events these lists
  read are visible to the seat, or the build raises in any case
  (`Observations.ObservationFromVisibleIff`).
- An answer that does not parse and comes from an alternate or the fallback is reported with a
  status that reads as a success. Such a status means a parsed response if and only if the primary
  answered or the answer parsed (`Routing.SuccessMeansParsedIff`,
  `Routing.UnparsedAlternateReadsAsSuccess`).
- The last recorded attempt is the returned result if and only if a fallback model is configured or
  some host answers; otherwise the record keeps the response that was not made safe
  (`Routing.LastAttemptIsResultIff`).
- The overwriting and the subtracting rewind of ratings give the same earlier scores if and only if
  for every build the changes recorded for its model in the window add up to the way from the score
  before its oldest event to its current score (`RankRewind.RewindsAgreeIff`). Chain consistency
  implies this (`RankRewind.ChainConsistentWindowsAgree`) but is not needed (`RankRewind.BrokenChainsCanCancel`);
  it is the exact condition for agreement at every window size (`RankRewind.EveryWindowAgreesIff`).
- The day search gives a numbered phase's day back only from day 0 on (`PhaseId.DayComesBack`).

## Model

| member | source | states |
|---|---|---|
| Slots.NextFree | src/padrino/economics/budget_reservations.py:31-37 | the lowest index neither implicitly nor physically taken: every smaller index is taken |
| Slots.RunKeepsInv | src/padrino/economics/budget_reservations.py:58-108 | every step of every run keeps the rank invariant: fewer than cap unreleased indices lie below any live or pending index |
| Slots.CapHoldsInEveryRun | src/padrino/economics/budget_reservations.py:58-138 | in every interleaving of stale reads, inserts, releases and deletes of live rows, live rows never exceed the cap, and neither do live rows plus any lower bound of the charges |
| SlotBudget.SlotCountIsFloor | src/padrino/economics/budget_reservations.py:17-21 | the slot count is the greatest number of whole reserves inside the budget, and 0 without a budget or a reserve |
| SlotBudget.ImplicitUseIsCeiling | src/padrino/economics/budget_reservations.py:24-28 | the implicit use is the least number of whole reserves that covers the spend, and 0 without a spend or a reserve |
| SlotBudget.HeldMoneyFitsBudget | src/padrino/economics/budget_reservations.py:76-108 | with one charged spend per scope, spend plus everything on hold fits the budget in every reachable state with a live slot |
| SlotBudget.PromiseKeptIff | src/padrino/economics/human_cost_governance.py:451-485 | live plus implicit use stays within the cap in every run iff all charges have the same clamped slot count |
| SlotBudget.NoIndexUsedTwice | src/padrino/economics/budget_reservations.py:119-138 | without hard deletes no physical index is handed out twice in any run |
| SlotBudget.DeletingReleasedRowBreaksCap | src/padrino/economics/human_cost_governance.py:590-609 | why the rows deleted must be the call's own: for every cap, a run hard-deleting one released row ends with one live row too many |
| SlotClaims.ClaimIsRun | src/padrino/economics/budget_reservations.py:88-108 | a claim interleaved with arbitrary steps of others is a run of the protocol, so the run theorems cover it |
| SlotClaims.ClaimOutcome | src/padrino/economics/budget_reservations.py:88-108 | a denial by the cap test is true when returned, and a returned id names a new live row with the caller's binding, whatever others do |
| SlotClaims.LosingEveryRaceNeedsFrees | src/padrino/economics/budget_reservations.py:89-108 | losing every round needs others to free at least implicit use + live rows + 1 rows meanwhile |
| SlotClaims.RetriesSufficeIff | src/padrino/economics/budget_reservations.py:76-108 | from any state cap + 1 rounds suffice against every environment freeing at most f rows iff f is at most the slots implicitly used or live at the start |
| SlotClaims.UndisturbedClaimDecides | src/padrino/economics/budget_reservations.py:76-108 | with few enough frees the fall-through None is unreachable: the claim is denied with the scope full or leaves its new live row |
| SlotStore.Store.SlotIndices | src/padrino/economics/budget_reservations.py:40-55 | the scan returns exactly the live and the physical indices of the scope |
| SlotStore.Store.NextFreeIndex | src/padrino/economics/budget_reservations.py:31-37 | the counting loop stops at the lowest free index |
| SlotStore.Store.ClaimLoop | src/padrino/economics/budget_reservations.py:88-108 | the retry loop over the shared table ends in the state and with the outcome of the claim protocol, for every environment |
| SlotStore.Store.ClaimBudgetSlot | src/padrino/economics/budget_reservations.py:58-108 | cap of zero, release of the caller's old rows, clamping and the loop together, as one transition of the table |
| SlotStore.Store.ReleaseBudgetSlot | src/padrino/economics/budget_reservations.py:111-138 | true exactly when an unreleased row with the id was there; releases it and nothing else |
| SlotStore.Store.ReleaseBudgetSlotsByBindingKey | src/padrino/economics/budget_reservations.py:141-163 | releases and counts exactly the live rows of the binding key, within one scope if one is given |
| SlotStore.ReleaseTwice | src/padrino/economics/budget_reservations.py:119-138 | releases are idempotent, so racing releasers cannot undo or double-count each other |
| HumanAdmission.AdmitHuman | src/padrino/economics/human_cost_governance.py:612-743 | the method over the table ends in the state and decision of the saga specification, for every interference; whose slots it claims is fixed by the rows that follow |
| HumanAdmission.RollbackAdmissionDecision | src/padrino/economics/human_cost_governance.py:590-609 | deletes exactly the rows the decision names |
| HumanAdmission.DenialLeavesNothing | src/padrino/economics/human_cost_governance.py:651-735 | undisturbed, a call is denied with the reason of the first full scope among everybody's money of the day, the principal's own and the principal's count of that kind of action, and leaves both tables exactly as before |
| HumanAdmission.AdmissionAddsOneRowPerScope | src/padrino/economics/human_cost_governance.py:651-743 | undisturbed, a call with room in those three scopes adds exactly one live row in each and nothing elsewhere; rollback restores the tables |
| HumanAdmission.AdmissionTakesFrom | src/padrino/economics/human_cost_governance.py:652-727 | one admission takes a slot from another request's global share iff the days agree, from its user's share iff principal and day agree, from its count iff, besides, both join or neither does |
| HumanAdmission.OnlyOwnScopesMatter | src/padrino/economics/human_cost_governance.py:651-743 | what an undisturbed call decides and the rows it adds are the same in any two tables that agree on its own three scopes: other principals, other days and the other kind of action have no say |
| HumanAdmission.AdmitIsRun | src/padrino/economics/human_cost_governance.py:612-743 | every call, denied or not, is a run of the slot protocol |
| HumanAdmission.DeniedCallLeavesNoRow | src/padrino/economics/human_cost_governance.py:638-743 | whatever others do, a denied call leaves none of the rows it wrote; an admitted one wrote exactly the three rows it names |
| HumanAdmission.AdmittedCallHoldsItsRows | src/padrino/economics/human_cost_governance.py:737-743 | if others touch by id only rows of their own decisions, an admitted call ends with its three rows live and unbound in their scopes |
| HumanAdmission.HumanLaneIsLegal | src/padrino/economics/human_cost_governance.py:590-609 | steps of the human lane delete only live rows |
| HumanAdmission.HumanCapsHold | src/padrino/economics/human_cost_governance.py:349-398 | in every run mixing admissions, binds, releases and rollbacks of any number of sessions every scope stays within its cap |
| HumanAdmission.AdmissionIsHumanLane | src/padrino/economics/human_cost_governance.py:612-743 | whole admissions with the rollbacks inside them are runs of the human lane, so the caps cover them |
| HumanAdmission.LaterRollbackIsHumanLane | src/padrino/economics/human_cost_governance.py:590-609 | an admitted call rolled back before its decision is bound, after any steps of others on rows of their own, still deletes its three held rows and stays in the human lane |
| HumanAdmission.DenialHasItsReason | src/padrino/economics/human_cost_governance.py:651-735 | whatever others do, the reason names the scope whose claim failed: it was full when the claim ended, or the claim lost every race |
| HumanAdmission.BindAdmissionSlots | src/padrino/economics/human_cost_governance.py:488-512 | binds exactly the rows of the decision to the lobby and member |
| HumanAdmission.ReleasesFollowBindings | src/padrino/economics/human_cost_governance.py:488-587 | for any decisions bound to any lobbies and members: abandoning a lobby releases exactly the rows bound to it, a departing member exactly its own, and materializing a game exactly the lobby's money reservations |
| BudgetClaims.QuietBudgetClaim | src/padrino/economics/budget_reservations.py:76-106 | an undisturbed claim takes the lowest free index under a fresh id iff there is room besides the caller's reclaimed rows, and otherwise changes nothing more |
| BudgetClaims.BudgetClaimRefusal | src/padrino/economics/budget_reservations.py:76-108 | a claim gets nothing iff the scope was full when it ended or it lost every race |
| BudgetClaims.BudgetClaimHolds | src/padrino/economics/budget_reservations.py:94-106 | whatever others do, a returned id is a live row of the caller in the scope with its binding |
| BenchmarkAdmission.ReserveBenchmarkBudget | src/padrino/economics/benchmark_admission.py:98-164 | the method ends in the state and decision of the two-scope saga, for every interference |
| BenchmarkAdmission.ReleaseBenchmarkBudgetReservation | src/padrino/economics/benchmark_admission.py:185-194 | releases exactly the slots the reservation names |
| BenchmarkAdmission.DeniedReservationHoldsNothing | src/padrino/economics/benchmark_admission.py:116-164 | whatever others do, a denied call holds no live row it wrote; an admitted one wrote exactly the rows named, and releasing leaves none live |
| BenchmarkAdmission.AdmittedGameHoldsItsSlots | src/padrino/economics/benchmark_admission.py:116-164 | if others touch by id only rows of their own and release only by their own keys, an admitted game ends with its slots live, bound to it and in their scopes |
| BenchmarkAdmission.DenialHasItsReason | src/padrino/economics/benchmark_admission.py:116-154 | whatever others do, the reason names the scope whose claim failed: full when the claim ended, or every race lost |
| BenchmarkAdmission.UndisturbedReservation | src/padrino/economics/benchmark_admission.py:116-164 | undisturbed, a game is admitted iff the global benchmark scope and its campaign's own have room besides its own older slots; it then holds one slot more in each, and a denied one none in either |
| BenchmarkAdmission.OtherCampaignsUntouched | src/padrino/economics/benchmark_admission.py:59-61 | undisturbed, a reservation, admitted or compensated, leaves the rows of every other campaign as they were |
| BenchmarkAdmission.CampaignsApart | src/padrino/economics/benchmark_admission.py:59-61 | two campaigns share a scope iff they are the same campaign, and none shares the global one |
| BenchmarkAdmission.ReserveIsRun | src/padrino/economics/benchmark_admission.py:98-164 | every reservation is a run of the slot protocol |
| BenchmarkAdmission.ReserveKeepsCaps | src/padrino/economics/benchmark_admission.py:98-164 | the cap invariant survives every reservation and its compensation |
| LiveTail.DrainWindow | src/padrino/public/live_tail.py:188-200 | emits the public events above the cursor in order, moves the cursor past hidden ones, stops at the terminal frame, and says whether it emitted any |
| LiveTail.StreamLiveTail | src/padrino/public/live_tail.py:139-220 | for every schedule, the frames are exactly the projected public events above the position asked for, or above 0 when none is, up to the cursor; the run closes at the first poll with a reason to (gone, terminal frame, terminal status, idle) and has then sent everything its polls have read, at any later moment still |
| LiveTail.RunIsDetermined | src/padrino/public/live_tail.py:178-220 | that contract fixes the closing poll, the close reason and the frames |
| LiveTail.ClosesOnTerminalFrame | src/padrino/public/live_tail.py:196-200 | a run sends a GameTerminated frame iff that is why it closed, and sends nothing after it |
| LiveTail.NothingAboveIsAll | src/padrino/public/live_tail.py:103-129 | terminal status read before an exhausted log means nothing will ever follow |
| LiveTail.SentIsPrefix | src/padrino/public/live_tail.py:188-197 | at every cursor what has been sent is a prefix of what there is to send |
| LiveTail.PrefixEndsAtLastId | src/padrino/public/live_tail.py:132-136 | what was received up to any frame is exactly what lies up to that frame's id |
| LiveTail.ReconnectIsSeamless | src/padrino/public/live_tail.py:132-197 | a run cut at any received frame and a second run from that frame's id together are one run over the growing log, to the same cursor and with the same close |
| LiveTail.CutAndResume | src/padrino/api/routes/public.py:1245-1277 | two calls of the tail, the first cut after any number of frames, the second asked to resume after the id of the last frame received, or as the first when none was: together they send everything the polls of the second have read from the first position on, nothing twice |
| LiveTail.ReconnectMissesNothing | src/padrino/public/live_tail.py:168-220 | what was received before the cut and the frames of the second run are together everything the polls of the second run have read, up to the first terminal frame |
| LiveTail.TailCompleteIff | src/padrino/public/live_tail.py:107-111 | from any position the tail carries the whole public log iff no public event lies at or below it |
| LiveTail.FreshTailCompleteIff | src/padrino/public/live_tail.py:168 | a tail without a position carries the whole public log iff no public event has sequence 0; one from a negative position always does |
| RateLimit.WindowBounds | src/padrino/api/rate_limit_store.py:108-109 | the window start is the one multiple of the window length at most now and less than one length before it |
| RateLimit.WaitingReachesLaterWindow | src/padrino/api/rate_limit_store.py:108-113 | waiting retry_after always lands in a later window |
| RateLimit.HintIsLeastWait | src/padrino/api/rate_limit_store.py:112-113 | a wait of d >= 1 seconds reaches a later window iff d is at least retry_after, which is at least 1 and at most max(1, window) |
| RateLimit.HintsFollowAnswers | src/padrino/api/rate_limit_store.py:127-282 | every single, batch and peek answer of either store carries that least wait when it refuses and 0 when it admits |
| RateLimit.AdmittedIffBelowLimit | src/padrino/api/rate_limit_store.py:127-261 | in any run of either store a request is admitted iff fewer than its limit were admitted under its key in the same window |
| RateLimit.WaitedCallIsAdmitted | src/padrino/api/rate_limit_store.py:108-145 | a caller that was refused and waits exactly as told is admitted in either store if nobody else calls meanwhile and its limit is positive |
| RateLimit.PeekForetellsRecord | src/padrino/api/rate_limit_store.py:169-282 | a peek answers as a record at once would: in memory always, in the database iff the limit is positive or the row exists |
| RateLimit.InMemoryStore.RecordRequests | src/padrino/api/rate_limit_store.py:147-167 | sweeping, testing every ceiling, then incrementing, as one transition of the counters, for any list of ceilings; the hint of a refusal is the least wait |
| RateLimit.DatabaseStore.RecordRequests | src/padrino/api/rate_limit_store.py:230-261 | incrementing ceiling by ceiling with the transaction rolled back on the first rejection, as one transition, for any list of ceilings; the hint of a refusal is the least wait |
| RateLimit.UpsertAllAdmits | src/padrino/api/rate_limit_store.py:244-258 | the upsert loop admits iff every ceiling has room for the requests made under its key up to there, and then increments them all |
| RateLimit.RecordsAgree | src/padrino/api/rate_limit_store.py:127-145 | related stores give the same single answer and stay related by mem = min(db, limit) |
| RateLimit.BatchesAgreeIff | src/padrino/api/rate_limit_store.py:147-167 | with fixed limits batch answers agree iff some bucket is full already or every ceiling has room for the requests under its key |
| RateLimit.BatchesAgree | src/padrino/api/rate_limit_store.py:230-261 | batches of distinct keys agree and keep the stores related |
| RateLimit.PeeksAgreeIff | src/padrino/api/rate_limit_store.py:263-282 | peeks agree iff the limit is positive or the row exists |
| RateLimit.StoresAgreeIff | src/padrino/api/rate_limit_store.py:127-282 | on every call sequence with non-decreasing time, fixed limits and distinct keys per batch the answers are identical iff every peek with a limit below 1 finds its row |
| RateLimit.StoresAgree | src/padrino/api/rate_limit_store.py:127-282 | so they are identical whenever peeks carry limits of at least 1 |
| RateLimit.EvictionChangesNoAnswer | src/padrino/api/rate_limit_store.py:136-139 | on every sequence with non-decreasing time both stores answer as stores that keep every bucket |
| RateLimit.AtMostLimitPerWindow | src/padrino/api/rate_limit_store.py:127-261 | at most limit admits of a key in one window, in each store |
| RateLimit.AtMostTwiceInAnySpan | src/padrino/api/rate_limit_store.py:127-261 | at most twice the limit in any span of one window length, in each store |
| Privacy.GuardIsFirstFinding | src/padrino/core/observation_privacy.py:163-177 | on every nested value the walker raises iff the collector reports, at the first reported path |
| Privacy.AuditIsExact | src/padrino/core/observation_privacy.py:233-269 | the reported paths are pairwise different and exactly the paths ending in an offending field |
| Privacy.RankedAuditIsExact | src/padrino/core/observation_privacy.py:233-247 | for the ranked audit those fields are the ones with a forbidden key and the game ids whose text names another game |
| Privacy.GuardAndAuditorAgree | src/padrino/core/observation_privacy.py:151-230 | on every observation the guard raises iff the auditor's list is non-empty, at the place listed first |
| Privacy.AuditObservationLog | src/padrino/core/observation_privacy.py:187-283 | the mutating collectors build exactly the specified findings with their redacted labels, observation by observation |
| Privacy.LeakNamesItsEvent | src/padrino/core/observation_privacy.py:233-256 | every payload finding gives the list, sequence number and path of a leak in an event of the log, the seat that saw it, the owner, and of the value its redacted form only |
| Privacy.RedactionTellsTypeAndSize | src/padrino/core/observation_privacy.py:286-290 | two values are redacted alike iff they have one type and, where they have a size, one size |
| Privacy.MemoryIsSearched | src/padrino/core/observation_privacy.py:272-283 | a token is reported iff it is one of the four and the memory spells it somewhere, in capitals or not |
| Privacy.CleanLogIffNoGuardRaised | src/padrino/core/observation_privacy.py:187-230 | the offline audit is empty iff the runtime guard passed every observation |
| PublishGate.ForbiddenPayloadFindings | src/padrino/gauntlets/publish_gate.py:343-359 | the recursive collector with loops returns the specified findings in order |
| PublishGate.GateIsExact | src/padrino/gauntlets/publish_gate.py:343-359 | it reports exactly the occurrences of forbidden keys, each once |
| PublishGate.GateAgainstAudit | src/padrino/gauntlets/publish_gate.py:59-60 | of the ranked audit's findings the gate passes over exactly roles, factions and references to other games |
| Spectator.SafeIffNoFinding | src/padrino/core/observation_privacy.py:328-343 | the anonymity check accepts a value iff the collector finds nothing in it |
| Spectator.StrippedIsSafe | src/padrino/core/spectator_projection.py:65-80 | stripping always yields an accepted value |
| Spectator.StripChangesUnsafe | src/padrino/core/spectator_projection.py:65-80 | stripping leaves a value alone iff it was accepted |
| Spectator.StripTwice | src/padrino/core/spectator_projection.py:65-80 | two strips are one strip of the union |
| Spectator.StrippedAt | src/padrino/core/spectator_projection.py:65-80 | stripping removes exactly what a path through a forbidden key leads to; every other path leads to the same value, itself stripped |
| Spectator.StripKeepsShape | src/padrino/core/spectator_projection.py:65-80 | scalars stay, lists and tuples keep their kind and length, dictionaries keep their remaining keys in order |
| Spectator.ProjectEvents | src/padrino/core/spectator_projection.py:147-158 | the loop yields the projections of the visible events in order |
| Spectator.ProjectTwice | src/padrino/core/spectator_projection.py:100-158 | projecting a projection with a larger key set is projecting once with it |
| Spectator.AnonymousViewOfTransparentView | src/padrino/core/spectator_projection.py:114-158 | the anonymous view of the transparent view is the anonymous view, for whole sequences and every spelling of the modes |
| Spectator.TransparentIffSpelt | src/padrino/core/observation_privacy.py:305-320 | a view is transparent iff its mode is text spelling TRANSPARENT in any case between blanks; everything else is anonymous |
| Spectator.ProjectionShows | src/padrino/core/spectator_projection.py:114-144 | a view shows exactly the events whose visibility spells PUBLIC, whole but for the payload keys its mode hides |
| Spectator.ToPublicEventsV1 | src/padrino/public/projection.py:79-90 | the loop yields the frames of the public events in order |
| Spectator.PublicFrameIsClean | src/padrino/public/projection.py:47-76 | a frame exists iff the visibility spells PUBLIC, has the version public_event_v1, keeps all but the payload, and its payload passes the anonymity check and the publish gate |
| Observations.FilterEvents | src/padrino/core/observations.py:305-332 | the loop returns the recent public and the permitted private entries in order |
| Observations.OnlyVisibleMatters | src/padrino/core/observations.py:318-326 | dropping everything a seat may not see changes nothing it is shown |
| Observations.HiddenEventsDoNotInterfere | src/padrino/core/observations.py:305-332 | logs that agree on the events visible to a seat give it the same public and private lists |
| Observations.DeadPlayers | src/padrino/core/observations.py:335-349 | the loop gathers the eliminations in order, or raises on a missing key |
| Observations.InspectionHistory | src/padrino/core/observations.py:352-368 | the loop gathers the seat's inspection results in order, or raises |
| Observations.RoleFeedback | src/padrino/core/observations.py:371-391 | the loop gathers the seat's night feedback in order, or raises |
| Observations.PayloadFinds | src/padrino/core/observations.py:335-391 | the key lookup of these loops fails iff no field has the key and otherwise gives the first such field's value |
| Observations.BuildLists | src/padrino/core/observations.py:180-248 | the five lists of an observation, the inspections for detectives only, or a raise |
| Observations.ObservationFromVisibleIff | src/padrino/core/observations.py:305-391 | dropping hidden events leaves the five lists alone iff eliminations and the seat's results and feedback are visible to it, or the build raises anyway |
| Observations.SecretsDoNotInterfere | src/padrino/core/observations.py:180-248 | under that condition logs that agree on the visible events give the same five lists |
| Observations.PrivateOrigin | src/padrino/core/observations.py:322-326 | a private entry is shown iff a PRIVATE event gave it whose actor is the seat itself or, for a mafia seat, some mafia seat |
| Observations.TownSeesOnlyItself | src/padrino/core/observations.py:322-326 | a seat outside the mafia is shown no private event of another |
| Observations.MafiaSharesPrivateEvents | src/padrino/core/observations.py:311-326 | all mafia seats are shown the same private events |
| Observations.EliminationHidesRole | src/padrino/core/observations.py:288-302 | every entry shown tells its event in full, but that an elimination carries neither role nor faction; nothing else is lost |
| Observations.RecentIsNewest | src/padrino/core/observations.py:328-330 | the transcript is the end of the public entries: with a positive limit the newest up to it, otherwise all but the oldest -limit |
| Observations.LimitRespectedIff | src/padrino/core/observations.py:328-330 | the transcript respects its limit iff the limit is positive or there is nothing to cut |
| HashChain.AcceptedIffBuilt | src/padrino/core/engine/event_log.py:82-96 | a log is accepted iff it is the one that appending its own bodies builds |
| HashChain.AcceptedMeans | src/padrino/core/engine/hashing.py:17-31 | a log is accepted iff it counts from 0, starts from 64 zeros, chains each event to the hash before it, and hashes that with the body but for three keys |
| HashChain.AcceptedRowsMean | src/padrino/gauntlets/publish_gate.py:231-239 | the same for game rows, whose hashed body is the six columns under their names, the sequence number among them |
| HashChain.EventLog.Append | src/padrino/core/engine/event_log.py:82-96 | appends the sealed event and keeps acceptance |
| HashChain.EventLog.FromStored | src/padrino/core/engine/event_log.py:49-80 | loads the log iff it is accepted, otherwise keeps the old one and names the first bad event with its first failing check |
| HashChain.OnePassDecides | src/padrino/core/engine/event_log.py:66-78 | the one-pass verdict is clean iff the log is accepted, and otherwise points at the first bad event |
| HashChain.ReplayEventLog | src/padrino/core/engine/replay.py:55-66 | re-sealing compares hashes only: clean iff all are right, then the rebuilt log is the appended one; otherwise it names the first wrong hash with the stored sequence number |
| HashChain.GameVerdict | src/padrino/gauntlets/publish_gate.py:262-303 | the gate's two passes are clean iff the log is accepted, and otherwise name the first broken link or hash, with sequence, expected and actual hash |
| HashChain.VerifiersAgree | src/padrino/gauntlets/publish_gate.py:262-303 | the gate and the loader accept the same logs, and the loader never points past the gate |
| HashChain.TipDeterminesRows | src/padrino/gauntlets/publish_gate.py:231-304 | two accepted logs of game rows with the same tip hash are equal event by event and in length |
| HashChain.TipDeterminesLog | src/padrino/core/engine/hashing.py:22-31 | over arbitrary bodies the tip fixes the log up to unhashed keys, unless a digest equals the genesis hash |
| HashChain.ExcludedKeysAreFree | src/padrino/core/engine/hashing.py:19-31 | rewriting unhashed keys of any event keeps a log accepted |
| HashChain.HashedKeysAreNot | src/padrino/core/engine/hashing.py:22-31 | any other change of one body is reported as a hash mismatch at that event |
| Routing.WithRetry | src/padrino/llm/retry.py:136-184 | result, recorded attempts and the exact sequence of calls and sleeps, by the number of leading retryable failures; sleep i lies between half of and the whole of min(max, base*2^i), at the ends for draws 0 and 1000, and is what the record says in milliseconds |
| Routing.DelayBounds | src/padrino/llm/retry.py:121-133 | every sleep lies between half the capped delay and the capped delay |
| Routing.RangeDoubles | src/padrino/llm/retry.py:128-129 | that range starts from base and doubles from one sleep to the next as long as it stays within max |
| Routing.LargerDrawNoShorterSleep | src/padrino/llm/retry.py:132-133 | a larger draw never gives a shorter sleep, in any run |
| Routing.HostCost | src/padrino/llm/retry.py:121-184 | 1 to max_attempts calls per host; total sleep at most min((m-1)*max, base*(2^(m-1)-1)) |
| Routing.LiteLlmAdapter.CallModel | src/padrino/llm/litellm_adapter.py:225-316 | the host's result and effects: answer, exhausted with its failure, or other error |
| Routing.LiteLlmAdapter.Complete | src/padrino/llm/litellm_adapter.py:145-219 | the first host that answers decides, all earlier attempts are primary_failed, nobody after it is called; otherwise a safe action with the terminal status |
| Routing.RoutingIsDetermined | src/padrino/llm/litellm_adapter.py:145-219 | that description fixes result, attempt log and effects |
| Routing.ExhaustedIff | src/padrino/llm/litellm_adapter.py:186-214 | exhausted iff no host answered and some host ran out of retries |
| Routing.HostFate | src/padrino/llm/retry.py:150-180 | a host runs out iff all its calls fail retryably, answers iff an answer follows retryable failures only, never both |
| Routing.AnswerEndsRouting | src/padrino/llm/litellm_adapter.py:157-205 | the result has no error iff some host answered, and is then that of the first one that did, parsed or not; otherwise it is the safe response |
| Routing.StatusNamesTheRoute | src/padrino/llm/litellm_adapter.py:145-308 | for an answer the status is the parse of the primary or the kind of the other host; for a failure it is exhausted iff some host spent all its calls on retryable errors, and otherwise the plain failure |
| Routing.SuccessMeansParsedIff | src/padrino/llm/litellm_adapter.py:179-205 | a status that reads as a success means a parsed response iff the primary answered or the answer parsed |
| Routing.UnparsedAlternateReadsAsSuccess | src/padrino/llm/litellm_adapter.py:179-185 | a network with a failing primary and an alternate answering no JSON, reported as a success |
| Routing.LastAttemptIsResultIff | src/padrino/llm/litellm_adapter.py:189-219 | the last recorded attempt is the result iff a fallback model is configured or some host answers |
| Routing.CallsBounded | src/padrino/llm/litellm_adapter.py:145-219 | provider calls are at most (alternates + 2) * max_attempts and at least one per host contacted; total sleep is bounded by the per-host bound |
| Routing.SafeResponseFitsPhase | src/padrino/llm/litellm_adapter.py:394-405 | the coerced action is ABSTAIN in a voting phase and NOOP in every other |
| Matchmaker.Shuffle | src/padrino/core/engine/rng.py:59-65 | the Fisher-Yates loop computes the specified permutation |
| Matchmaker.EveryOrderComesOut | src/padrino/core/engine/rng.py:59-65 | every order of the items comes out of some draws |
| Matchmaker.DrawsDecideTheOrder | src/padrino/core/engine/rng.py:59-65 | two draws give one order of distinct items iff they agree at every position drawn for, so uniform draws make all orders equally likely |
| Matchmaker.CountPlays | src/padrino/matchmaking/matchmaker.py:81-86 | counts every participation of roster agents and ignores the others |
| Matchmaker.NextMatch | src/padrino/matchmaking/matchmaker.py:50-105 | error iff the roster is too small; otherwise distinct roster agents, nobody left out having played less, for every shuffle |
| Matchmaker.SortIsStable | src/padrino/matchmaking/matchmaker.py:88-91 | agents with equally many plays keep the shuffled order |
| Matchmaker.PlanIsFair | src/padrino/matchmaking/matchmaker.py:88-99 | seats get distinct selected agents and a least-played selection |
| Matchmaker.EveryFairPickComesOut | src/padrino/matchmaking/matchmaker.py:78-99 | the converse: every fair pick in every seat order comes out of some draws |
| Matchmaker.SpreadNeverGrows | src/padrino/matchmaking/matchmaker.py:78-99 | over any run the spread of play counts never rises above max(old spread, 1) |
| Matchmaker.SeasonsAreFair | src/padrino/matchmaking/matchmaker.py:50-105 | for every season of plans, each appended to the history of the next and with any draws: the spread bound, and from an empty history the floor-or-ceiling share |
| Matchmaker.EveryAgentGetsItsShare | src/padrino/matchmaking/matchmaker.py:78-99 | from empty history after m matches of n seats every one of R agents has played floor or ceiling of m*n/R times |
| RankRewind.RanksAreABijection | src/padrino/gauntlets/campaign_report.py:129-131 | the ranks are a bijection onto 1..n |
| RankRewind.RanksFollowScores | src/padrino/gauntlets/campaign_report.py:129-131 | a smaller rank iff a higher score, or the same score and a smaller id |
| RankRewind.RankCountsThoseAhead | src/padrino/gauntlets/campaign_report.py:129-131 | a rank is one more than the number of entities ahead |
| RankRewind.NoRankMovesIff | src/padrino/gauntlets/publish_gate.py:769-780 | all deltas are zero iff the current order is the beginning of the baseline order |
| RankRewind.AgentRankStability | src/padrino/gauntlets/campaign_report.py:388-423 | with n = min(max(k, 0), events): the loop ranks the baseline rewound over the newest n events, whatever the older ones are, and reports k, n, both ranks, their distance, and stable iff they are equal |
| RankRewind.OlderEventsDoNotCount | src/padrino/gauntlets/campaign_report.py:426-445 | a longer log with the same newest k events gives the same window |
| RankRewind.ReportModelStability | src/padrino/gauntlets/campaign_report.py:486-532 | the same for every model, over the baseline with the newest n events subtracted |
| RankRewind.GateModelStability | src/padrino/gauntlets/publish_gate.py:738-780 | the gate's answers are the report's over the newest n events, its shortcut for an empty window included, and always exist |
| RankRewind.OverwrittenPerBuild | src/padrino/gauntlets/campaign_report.py:406-410 | overwriting leaves each build with the score before its oldest event, or its current score |
| RankRewind.ScoreBeforeOldest | src/padrino/gauntlets/campaign_report.py:406-410 | that score is mu - 3 sigma as recorded before the event |
| RankRewind.SubtractedPerModel | src/padrino/gauntlets/campaign_report.py:512-519 | subtracting leaves each model with its score less what the events of its builds gained, for any number of builds |
| RankRewind.RewindsAgreeIff | src/padrino/gauntlets/campaign_report.py:406-519 | the two rewinds give the same earlier scores iff for every build the changes recorded for its model add up to the way from the score before its oldest event to the current one |
| RankRewind.EveryWindowAgreesIff | src/padrino/gauntlets/campaign_report.py:426-445 | for single-build models the changes add up in every window up to n events iff each event ends where the build's next newer one starts, or at the current score |
| RankRewind.ChainConsistentWindowsAgree | src/padrino/gauntlets/campaign_report.py:406-519 | over chain-consistent windows of single-build models the rewinds agree |
| RankRewind.BrokenChainsCanCancel | src/padrino/gauntlets/campaign_report.py:406-519 | two breaks in a chain can cancel, so the converse fails |
| RankRewind.RewindsCanDiffer | src/padrino/gauntlets/campaign_report.py:513-519 | an event not ending at the current score makes them differ |
| RankRewind.SameBaselineSameMoves | src/padrino/gauntlets/campaign_report.py:388-532 | with every build its own model the baselines are the same map iff the changes add up, and then both reports show the same movement for everybody |
| RankRewind.SingleBuildScore | src/padrino/gauntlets/publish_gate.py:719-730 | a model with one rated build has that build's score |
| RankRewind.MeanSkillBetween | src/padrino/gauntlets/publish_gate.py:719-726 | a model's mean skill lies between those of its rated builds |
| Statistics.WilsonIsSound | src/padrino/core/statistics.py:58-72 | the interval contains k/n, lies in [0, 1], has positive width, and the clamps and snaps never change the exact value |
| Statistics.WilsonMirrors | src/padrino/core/statistics.py:58-72 | swapping successes and failures mirrors the interval |
| Statistics.WilsonInvertsTheScoreTest | src/padrino/core/statistics.py:58-67 | the interval is exactly the set of proportions t with (p - t)^2 <= z^2 * t(1 - t)/n |
| Statistics.IndicesMirror | src/padrino/core/statistics.py:108-110 | the percentile indices are in range, in order and mirror images; they enclose the wanted share, and one position less at either end would not |
| Statistics.SumAdds | src/padrino/core/statistics.py:96-107 | the sums behind the means add up over any split of the samples |
| Statistics.BootstrapMeanCi | src/padrino/core/statistics.py:75-115 | errors, the degenerate sizes, and otherwise the percentile interval of the resampled means |
| Statistics.BootstrapCovers | src/padrino/core/statistics.py:97-115 | bounds in order, within the range of the samples, with at least the wanted share of the resampled means between them |
| SpanMask.Substitute | src/padrino/public/moderation.py:107-108 | the left-to-right substitution masks exactly the covered positions and counts iff something matches |
| SpanMask.MatchInContext | src/padrino/public/moderation.py:97-108 | a pattern matches at a place iff the text spells it there, case aside, and neither neighbour is a word character |
| SpanMask.DeterministicSpanMask | src/padrino/public/moderation.py:97-111 | masking pattern by pattern equals masking all matches of the original text at once; did_mask iff the text changed |
| SpanMask.InTurnIsAtOnce | src/padrino/public/moderation.py:107-110 | earlier substitutions neither create nor spoil later matches |
| SpanMask.OrderDoesNotMatter | src/padrino/public/moderation.py:50-57 | the result does not depend on the order of the patterns |
| SpanMask.NothingLeft | src/padrino/public/moderation.py:97-111 | no pattern matches the masked text anywhere |
| SpanMask.MaskingTwice | src/padrino/public/moderation.py:97-111 | masking is idempotent |
| SpanMask.HardMatchAfterMask | src/padrino/public/moderation.py:86-111 | masking keeps exactly the hard matches no soft match overlaps, and makes no new ones |
| SpanMask.FirstPassAfterMask | src/padrino/public/moderation.py:86-111 | a message that passes the hard first pass still does when masked; one that trips it still does iff some hard match overlaps no soft match |
| SpanMask.ChangesOnlyMatches | src/padrino/public/moderation.py:97-111 | length is kept, only word characters inside matches change, and only to asterisks |
| PhaseId.KindRoundTrip | src/padrino/llm/observation_phase.py:26-38 | parsing a printed id gives back the kind, for every day and round |
| PhaseId.DayComesBack | src/padrino/analytics/deterministic.py:197-200 | the day search gives back the day of every numbered id from 0 on, and 0 for every other id |
| PhaseId.FormatInjective | src/padrino/core/observations.py:160-177 | two phases print the same id iff they agree on the printed fields |
| PhaseId.VoteSuffixIffVote | src/padrino/llm/litellm_adapter.py:394-398 | an id ends in _VOTE iff the kind is DAY_VOTE |

## Left out

- Transactions and SQL: every read, insert, conditional update and delete is one atomic step on a map or sequence; isolation levels and engine errors other than the lost unique constraint are not modelled.
- Spend sums, clocks, random draws and provider answers are inputs; the injected draws of the generator are arbitrary within their range.
- Floats: money, scores and statistics are exact reals, so rounding error is not modelled; square roots are arguments known only by their square.
- RateLimit windows have a whole number of seconds, as the default of 60 seconds that callers use; time itself is real.
- HumanAdmission assumes that no principal is called "GLOBAL", which identifiers in hexadecimal satisfy; the releases by lobby and member are steps of the protocol and not methods of their own.
- LiveTail leaves out the text of frames and heartbeats and the sleep between polls, and assumes that a finished game's log no longer grows.
- StreamLiveTail: covers any number of polls given beforehand instead of an endless loop, and does not say when heartbeats are sent.
- SHA-256 and canonical JSON are an abstract digest assumed injective where a lemma says so; payload text inside a hashed row is one abstract value.
- Privacy and Spectator: the rendered path strings are structured paths, the redacted label of every number is that of an int, lower and upper case are those of ASCII, and the iteration order of the token set is fixed.
- Spectator strips blank, tab, line feed and carriage return from a mode; Python's `strip` also removes other white space.
- SpanMask: word characters and case folding are parameters; patterns are words between word boundaries, as all soft patterns are. A hard pattern is any set of strings without asterisks, with word boundaries or without.
- Routing: latencies, token counts, costs, metrics and logging; exceptions that are not ordinary errors, such as cancellation, are not caught by the source and not modelled.
- Matchmaker: the two shuffles take arbitrary draws; fairness is stated for rosters without duplicates, since a roster that lists an agent twice can seat it twice. Seat names are positions.
- RankRewind: the two queries choose their events differently (the gate's by rating context as well); a window is a parameter. Ids are compared as strings by character code.
- The row allowlists (`project_row_through_allowlist`) and turn pricing are single filters or formulas and would only add easy members; `assert_no_identity_markers` is `Spectator.Safe` with the identity keys.
- The game engine's reducer, rulesets and resolvers, the HTTP routes, dashboards, OAuth, webhooks, retention planning, leaderboards, sprites and alerts would add only plumbing or single-branch members.
